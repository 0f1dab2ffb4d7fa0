/**
vm.c: setupkvm, which maps the kernel into a new page directory, and copyuvm, which
copies a process's memory for fork.
*/
module AddressSpace {
  import opened Paging
  import opened PageAlloc
  import opened PageTable
  import opened UserMemory

  const EXTPAGES: nat := 0x100
  const DEVPAGE: nat := 0xF_E000
  const KMAPROWS: nat := 4

  // ----- the kernel's mappings

  datatype Row = Row(first: nat, count: nat, frame: nat, perm: nat)

  predicate DataOk(data: nat) {
    EXTPAGES < data < PHYSPAGES
  }

  /* The table kmap, in pages; `data` is the physical page where the kernel's data begins. */
  function Kmap(data: nat, i: nat): (r: Row)
    requires DataOk(data) && i < KMAPROWS
  {
    match i
    case 0 => Row(USERPAGES, EXTPAGES, 0, PTE_W)
    case 1 => Row(USERPAGES + EXTPAGES, data - EXTPAGES, EXTPAGES, 0)
    case 2 => Row(USERPAGES + data, PHYSPAGES - data, data, PTE_W)
    case _ => Row(DEVPAGE, NPAGES - DEVPAGE, DEVPAGE, PTE_W)
  }

  /* The entry for page v once the first n rows of kmap are mapped. */
  function KernelPte(data: nat, n: nat, v: nat): word
    requires DataOk(data) && n <= KMAPROWS && v < NPAGES
  {
    if n == 0 then 0
    else
      var r := Kmap(data, n - 1);
      if r.first <= v < r.first + r.count then Entry(r.frame + (v - r.first), r.perm) else KernelPte(data, n - 1, v)
  }

  ghost predicate KernelOnly(m: seq<word>, data: nat, n: nat) {
    |m| == NPAGES && DataOk(data) && n <= KMAPROWS && forall v :: 0 <= v < NPAGES ==> m[v] == KernelPte(data, n, v)
  }

  /* All of kmap, said at once. */
  lemma KernelMap(data: nat, v: nat)
    requires DataOk(data) && v < NPAGES
    ensures var w := KernelPte(data, KMAPROWS, v);
            && (v < USERPAGES || USERPAGES + PHYSPAGES <= v < DEVPAGE ==> w == 0)
            && (USERPAGES <= v < USERPAGES + PHYSPAGES ==>
                  w == Entry(v - USERPAGES, if EXTPAGES <= v - USERPAGES < data then 0 else PTE_W))
            && (DEVPAGE <= v ==> w == Entry(v, PTE_W))
  {
    hide Entry;
    var e0, e1, e2, e3 := KernelPte(data, 0, v), KernelPte(data, 1, v), KernelPte(data, 2, v), KernelPte(data, 3, v);
    assert e0 == 0;
    assert e1 == if USERPAGES <= v < USERPAGES + EXTPAGES then Entry(v - USERPAGES, PTE_W) else e0;
    assert e2 == if USERPAGES + EXTPAGES <= v < USERPAGES + data then Entry(v - USERPAGES, 0) else e1;
    assert e3 == if USERPAGES + data <= v < USERPAGES + PHYSPAGES then Entry(v - USERPAGES, PTE_W) else e2;
  }

  /* The rows of kmap do not overlap, so mappages never finds a page mapped already. */
  lemma RowsApart(data: nat, n: nat, v: nat)
    requires DataOk(data) && n < KMAPROWS
    requires var r := Kmap(data, n); r.first <= v < r.first + r.count
    ensures v < NPAGES && !Present(KernelPte(data, n, v))
  {
    assert KernelPte(data, 0, v) == 0;
    if n >= 1 { assert KernelPte(data, 1, v) == 0; }
    if n >= 2 { assert KernelPte(data, 2, v) == 0; }
    if n >= 3 { assert KernelPte(data, 3, v) == 0; }
  }

  lemma KernelRow(m: seq<word>, m': seq<word>, data: nat, n: nat)
    requires KernelOnly(m, data, n) && n < KMAPROWS
    requires var r := Kmap(data, n); MapsRange(m, m', r.first, r.count, r.frame, r.perm)
    ensures KernelOnly(m', data, n + 1)
  {
    hide Entry;
  }

  // ----- counting directory entries

  /* The directory entries the kernel takes. */
  ghost function KernelDirs(): set<nat> {
    DirsOf(USERPAGES, USERPAGES + PHYSPAGES) + DirsOf(DEVPAGE, NPAGES)
  }

  ghost function Interval(a: nat, b: nat): (r: set<nat>)
    ensures forall i :: i in r <==> a <= i < b
    ensures a <= b ==> |r| == b - a
  {
    if b <= a then {} else Interval(a, b - 1) + {b - 1}
  }

  lemma DirsCount(lo: nat, n: nat)
    requires lo % NENTRIES == 0
    ensures |DirsOf(lo, lo + n)| == (n + NENTRIES - 1) / NENTRIES
  {
    var a := lo / NENTRIES;
    assert DirsOf(lo, lo + n) == Interval(a, a + (n + NENTRIES - 1) / NENTRIES);
  }

  lemma KernelDirsCount()
    ensures |KernelDirs()| == 64
  {
    DirsCount(USERPAGES, PHYSPAGES);
    DirsCount(DEVPAGE, NPAGES - DEVPAGE);
    assert DirsOf(USERPAGES, USERPAGES + PHYSPAGES) !! DirsOf(DEVPAGE, NPAGES);
  }

  /* The directory entries of the first n rows of kmap. */
  ghost function RowDirs(data: nat, n: nat): set<nat>
    requires DataOk(data) && n <= KMAPROWS
  {
    if n == 0 then {}
    else RowDirs(data, n - 1) + DirsOf(Kmap(data, n - 1).first, Kmap(data, n - 1).first + Kmap(data, n - 1).count)
  }

  lemma RowOk(data: nat, n: nat)
    requires DataOk(data) && n < KMAPROWS
    ensures var r := Kmap(data, n);
            && r.first >= USERPAGES && r.first + r.count <= NPAGES && r.frame + r.count <= NPAGES && 0 < r.count
               && r.perm < PGSIZE
            && PagesIn(r.first * PGSIZE, r.count * PGSIZE) == r.count
            && DirsOf(r.first, r.first + r.count) <= KernelDirs()
  {
  }

  lemma RowDirsAll(data: nat)
    requires DataOk(data)
    ensures RowDirs(data, 0) == {} && RowDirs(data, KMAPROWS) == KernelDirs()
            && forall n :: 0 <= n <= KMAPROWS ==> RowDirs(data, n) <= KernelDirs()
  {
    var d1, d2, d3, d4 := RowDirs(data, 1), RowDirs(data, 2), RowDirs(data, 3), RowDirs(data, 4);
    assert RowDirs(data, 0) == {};
    assert d1 == DirsOf(USERPAGES, USERPAGES + EXTPAGES);
    assert d2 == d1 + DirsOf(USERPAGES + EXTPAGES, USERPAGES + data);
    assert d3 == d2 + DirsOf(USERPAGES + data, USERPAGES + PHYSPAGES);
    assert d4 == d3 + DirsOf(DEVPAGE, NPAGES);
    assert d3 == DirsOf(USERPAGES, USERPAGES + PHYSPAGES);
  }

  // ----- setupkvm

  ghost predicate SameUser(m: seq<word>, m': seq<word>) {
    |m| == |m'| == NPAGES && forall v :: 0 <= v < USERPAGES ==> m'[v] == m[v]
  }

  lemma RangeAbove(m: seq<word>, m': seq<word>, first: nat, n: nat, frame: nat, perm: nat)
    requires MapsRange(m, m', first, n, frame, perm) && first >= USERPAGES
    ensures SameUser(m, m')
  {
  }

  /* Mapping kernel pages takes nothing from anyone but the free list. */
  lemma OwnKernel(mem: Memory, mem': Memory, dir: nat, free: set<nat>, free': set<nat>, others: set<nat>)
    requires Own(mem, dir, free, others) && Extends(mem, dir, free, mem', free')
             && SameUser(Ptes(mem, dir), Ptes(mem', dir))
    ensures Own(mem', dir, free', others) && SameOn(mem, mem', others)
  {
    hide DirOk;
    hide Ptes;
    hide Tables;
    var m, m' := Ptes(mem, dir), Ptes(mem', dir);
    forall x ensures x in UserFrames(m) <==> x in UserFrames(m') {
      if x in UserFrames(m) {
        var v :| 0 <= v < USERPAGES && Present(m[v]) && Frame(m[v]) == x;
        assert m'[v] == m[v];
      }
      if x in UserFrames(m') {
        var v :| 0 <= v < USERPAGES && Present(m'[v]) && Frame(m'[v]) == x;
        assert m'[v] == m[v];
      }
    }
    assert UserFrames(m') == UserFrames(m);
  }

  lemma RowTook(pd: Page, pd': Page, n: nat, n': nat, data: nat, i: nat)
    requires DataOk(data) && i < KMAPROWS && Dirs(pd) == RowDirs(data, i)
    requires var r := Kmap(data, i); Took(pd, pd', n, n', r.first, r.first + r.count)
    ensures Dirs(pd') == RowDirs(data, i + 1) && n' + |Dirs(pd')| == n + |Dirs(pd)|
  {
    hide Dirs;
    hide DirsOf;
    var d := DirsOf(Kmap(data, i).first, Kmap(data, i).first + Kmap(data, i).count);
    assert Dirs(pd') == Dirs(pd) + (d - Dirs(pd));
  }

  lemma RowTooMany(pd: Page, n: nat, data: nat, i: nat)
    requires DataOk(data) && i < KMAPROWS && Dirs(pd) == RowDirs(data, i)
    requires var r := Kmap(data, i); n < |DirsOf(r.first, r.first + r.count) - Dirs(pd)|
    ensures n + |Dirs(pd)| < 64
  {
    hide Dirs;
    hide DirsOf;
    RowOk(data, i);
    RowDirsAll(data);
    KernelDirsCount();
    var d := DirsOf(Kmap(data, i).first, Kmap(data, i).first + Kmap(data, i).count);
    assert Dirs(pd) + (d - Dirs(pd)) <= KernelDirs();
    SubsetCount(Dirs(pd) + (d - Dirs(pd)), KernelDirs());
  }

  /* One row of kmap. */
  method MapRow(k: Kmem, dir: nat, data: nat, i: nat, ghost others: set<nat>) returns (ok: bool)
    requires k.Valid() && Own(k.mem, dir, k.Free(), others) && DataOk(data) && i < KMAPROWS
    requires KernelOnly(Ptes(k.mem, dir), data, i) && Dirs(Pd(k.mem, dir)) == RowDirs(data, i)
    modifies k
    ensures k.Valid() && Own(k.mem, dir, k.Free(), others) && SameOn(old(k.mem), k.mem, others)
    ensures ok ==> KernelOnly(Ptes(k.mem, dir), data, i + 1) && Dirs(Pd(k.mem, dir)) == RowDirs(data, i + 1)
    ensures ok ==> |k.free| + |Dirs(Pd(k.mem, dir))| == |old(k.free)| + |Dirs(Pd(old(k.mem), dir))|
    ensures !ok ==> |old(k.free)| + |Dirs(Pd(old(k.mem), dir))| < 64
  {
    hide DirOk;
    hide Ptes;
    hide Tables;
    hide Own;
    hide Extends;
    hide Base;
    hide MapsRange;
    hide Took;
    hide Dirs;
    hide DirsOf;
    hide PagesIn;
    hide Entry;
    hide RowDirs;
    hide Kmap;
    hide KernelPte;
    ghost var mem, free, nfree := k.mem, k.Free(), |k.free|;
    var r := Kmap(data, i);
    RowOk(data, i);
    OwnBase(mem, dir, free, others);
    forall v | r.first <= v < r.first + r.count ensures !Present(Ptes(mem, dir)[v]) { RowsApart(data, i, v); }
    var res := Mappages(k, dir, r.first * PGSIZE, r.count * PGSIZE, r.frame * PGSIZE, r.perm);
    if res.NoMemory? {
      RowTooMany(Pd(mem, dir), nfree, data, i);
      ghost var n :| 0 <= n < r.count && MapsRange(Ptes(mem, dir), Ptes(k.mem, dir), r.first, n, r.frame, r.perm);
      RangeAbove(Ptes(mem, dir), Ptes(k.mem, dir), r.first, n, r.frame, r.perm);
      OwnKernel(mem, k.mem, dir, free, k.Free(), others);
      return false;
    }
    assert res.Done?;
    RangeAbove(Ptes(mem, dir), Ptes(k.mem, dir), r.first, r.count, r.frame, r.perm);
    OwnKernel(mem, k.mem, dir, free, k.Free(), others);
    KernelRow(Ptes(mem, dir), Ptes(k.mem, dir), data, i);
    RowTook(Pd(mem, dir), Pd(k.mem, dir), nfree, |k.free|, data, i);
    return true;
  }

  /* A zeroed page taken from the free list is an empty directory. */
  lemma NewDirectory(mem: Memory, free: set<nat>, others: set<nat>, dir: nat, data: nat)
    requires Partition(mem.Keys, {}, free, others) && dir in free && DataOk(data)
    ensures dir in mem && dir !in free - {dir}
    ensures var mem': Memory := mem[dir := ZeroPage()];
            && Own(mem', dir, free - {dir}, others) && SameOn(mem, mem', others)
            && KernelOnly(Ptes(mem', dir), data, 0) && Dirs(Pd(mem', dir)) == {}
  {
    var mem': Memory := mem[dir := ZeroPage()];
    assert Tables(mem', dir) == {};
    assert UserFrames(Ptes(mem', dir)) == {};
  }

  /* What a directory owns and the free pages are all the pages that were free before it. */
  lemma AllBack(mem: Memory, dir: nat, free: set<nat>, others: set<nat>, free0: set<nat>)
    requires Own(mem, dir, free, others) && Partition(mem.Keys, {}, free0, others)
    ensures free + Owned(mem, dir) == free0
  {
    assert free + Owned(mem, dir) == mem.Keys - others;
  }

  /* No page can be used by the user, and the kernel can write all its pages but its code and
     constants. */
  ghost predicate KernelAccess(mem: Memory, dir: nat, data: nat) {
    forall v :: 0 <= v < NPAGES ==>
      var a := AccessAt(mem, dir, v);
      && (a.present <==> USERPAGES <= v < USERPAGES + PHYSPAGES || DEVPAGE <= v)
      && (a.present ==> !a.user && (a.writable <==> !(USERPAGES + EXTPAGES <= v < USERPAGES + data)))
  }

  lemma KernelAllows(mem: Memory, dir: nat, free: set<nat>, others: set<nat>, data: nat)
    requires Own(mem, dir, free, others) && KernelOnly(Ptes(mem, dir), data, KMAPROWS)
    ensures KernelAccess(mem, dir, data)
  {
    hide Ptes;
    hide Apart;
    hide Partition;
    hide Entry;
    hide AccessAt;
    hide KernelPte;
    hide DirOk;
    forall v | 0 <= v < NPAGES
      ensures var a := AccessAt(mem, dir, v);
              && (a.present <==> USERPAGES <= v < USERPAGES + PHYSPAGES || DEVPAGE <= v)
              && (a.present ==> !a.user && (a.writable <==> !(USERPAGES + EXTPAGES <= v < USERPAGES + data)))
    {
      KernelMap(data, v);
      if USERPAGES <= v < USERPAGES + PHYSPAGES {
        EntryAccess(mem, dir, v, v - USERPAGES, if EXTPAGES <= v - USERPAGES < data then 0 else PTE_W);
      } else if DEVPAGE <= v {
        EntryAccess(mem, dir, v, v, PTE_W);
      } else {
        AbsentAccess(mem, dir, v);
      }
    }
  }

  lemma AbsentAccess(mem: Memory, dir: nat, v: nat)
    requires v < NPAGES && !Present(Ptes(mem, dir)[v])
    ensures !AccessAt(mem, dir, v).present
  {
  }

  /* setupkvm: a directory that maps exactly the kernel and owns only its tables, or 0 with
     every page given back; it fails exactly when fewer than 65 pages are free. */
  method Setupkvm(k: Kmem, data: nat, ghost others: set<nat>) returns (dir: nat)
    requires k.Valid() && Partition(k.mem.Keys, {}, k.Free(), others) && DataOk(data)
    modifies k
    ensures k.Valid() && SameOn(old(k.mem), k.mem, others)
    ensures dir == 0 <==> |old(k.free)| < 65
    ensures dir == 0 ==> k.Free() == old(k.Free())
    ensures dir != 0 ==> Own(k.mem, dir, k.Free(), others) && KernelOnly(Ptes(k.mem, dir), data, KMAPROWS)
    ensures dir != 0 ==> KernelAccess(k.mem, dir, data)
    ensures dir != 0 ==> Dirs(Pd(k.mem, dir)) == KernelDirs() && |k.free| == |old(k.free)| - 65
  {
    hide KernelAccess;
    hide DirOk;
    hide Ptes;
    hide Tables;
    hide Own;
    hide Partition;
    hide Linked;
    hide RowDirs;
    hide KernelOnly;
    hide Dirs;
    hide SameOn;
    hide KernelDirs;
    SameOnSelf(k.mem, others);
    dir := k.Kalloc();
    if dir == 0 {
      return 0;
    }
    NewDirectory(k.mem, old(k.Free()), others, dir, data);
    Unlinked(k.mem, k.mem[dir := ZeroPage()], k.freelist, k.free);
    k.mem := k.mem[dir := ZeroPage()];
    RowDirsAll(data);
    KernelDirsCount();
    var i := 0;
    while i < KMAPROWS
      invariant 0 <= i <= KMAPROWS && k.mem.Keys == old(k.mem.Keys) && k.Valid() && Own(k.mem, dir, k.Free(), others)
                && SameOn(old(k.mem), k.mem, others)
      invariant KernelOnly(Ptes(k.mem, dir), data, i) && Dirs(Pd(k.mem, dir)) == RowDirs(data, i)
      invariant |k.free| + |Dirs(Pd(k.mem, dir))| == |old(k.free)| - 1
    {
      ghost var mem := k.mem;
      var ok := MapRow(k, dir, data, i, others);
      SameOnTwice(old(k.mem), mem, k.mem, others);
      if !ok {
        ghost var mem1, free1 := k.mem, k.Free();
        Freevm(k, dir, others);
        SameOnTwice(old(k.mem), mem1, k.mem, others);
        AllBack(mem1, dir, free1, others, old(k.Free()));
        return 0;
      }
      i := i + 1;
    }
    KernelAllows(k.mem, dir, k.Free(), others, data);
  }

  // ----- copyuvm

  /* m maps copies of the first n pages that src maps, with the same flags, and the kernel. */
  ghost predicate Copied(src: seq<word>, mem0: Memory, m: seq<word>, mem: Memory, n: nat, data: nat) {
    && |src| == |m| == NPAGES && DataOk(data)
    && (forall v :: 0 <= v < n && v < USERPAGES ==> CopiedPage(src[v], mem0, m[v], mem))
    && (forall v :: n <= v < NPAGES ==> m[v] == KernelPte(data, KMAPROWS, v))
  }

  ghost predicate CopiedPage(w0: word, mem0: Memory, w: word, mem: Memory) {
    && Present(w) && Flags(w) == Flags(w0) && Frame(w) in mem && Frame(w0) in mem0
    && mem[Frame(w)] == mem0[Frame(w0)]
  }

  lemma CopiedNone(src: seq<word>, mem0: Memory, m: seq<word>, mem: Memory, data: nat)
    requires KernelOnly(m, data, KMAPROWS) && |src| == NPAGES
    ensures Copied(src, mem0, m, mem, 0, data)
  {
  }

  lemma CopiedAbsent(src: seq<word>, mem0: Memory, m: seq<word>, mem: Memory, v: nat, data: nat)
    requires Copied(src, mem0, m, mem, v, data) && v < USERPAGES
    ensures !Present(m[v])
  {
    KernelMap(data, v);
  }

  lemma CopiedOneMore(src: seq<word>, mem0: Memory, m: seq<word>, m': seq<word>, mem: Memory, mem': Memory, v: nat,
                      p: nat, data: nat)
    requires Copied(src, mem0, m, mem, v, data) && v < USERPAGES && p < NPAGES && Present(src[v])
    requires m' == m[v := Entry(p, Flags(src[v]))] && Frame(src[v]) in mem0 && p in mem'
             && mem'[p] == mem0[Frame(src[v])]
    requires forall u :: 0 <= u < USERPAGES && Present(m[u]) ==> KeepsFrame(mem, mem', Frame(m[u]))
    ensures Copied(src, mem0, m', mem', v + 1, data)
  {
    assert Flags(src[v]) % 2 == 1;
    forall u | 0 <= u < v + 1 ensures CopiedPage(src[u], mem0, m'[u], mem') {
      if u < v {
        assert CopiedPage(src[u], mem0, m[u], mem);
      }
    }
  }

  /* The source of the copy lies outside what the copy may write. */
  lemma SourceIntact(mem0: Memory, mem: Memory, dir: nat, free0: set<nat>, others: set<nat>, d: nat, free: set<nat>)
    requires Own(mem0, dir, free0, others) && SameOn(mem0, mem, Owned(mem0, dir) + others)
    requires Own(mem, d, free, Owned(mem0, dir) + others)
    ensures Base(mem, dir, free) && Tables(mem, dir) == Tables(mem0, dir) && Ptes(mem, dir) == Ptes(mem0, dir)
    ensures Owned(mem, dir) == Owned(mem0, dir) && Own(mem, dir, free, others + Owned(mem, d))
  {
    hide Pte;
    SameTable(mem0, mem, dir);
  }

  lemma SourceFrame(mem0: Memory, mem: Memory, dir: nat, free0: set<nat>, others: set<nat>, v: nat)
    requires Own(mem0, dir, free0, others) && SameOn(mem0, mem, Owned(mem0, dir) + others)
    requires v < USERPAGES && Present(Ptes(mem0, dir)[v])
    ensures var f := Frame(Ptes(mem0, dir)[v]); f in mem0 && f in mem && mem[f] == mem0[f]
  {
    assert Frame(Ptes(mem0, dir)[v]) in UserFrames(Ptes(mem0, dir));
  }

  /* One round of the loop of copyuvm. */
  method CopyOne(k: Kmem, dir: nat, d: nat, v: nat, data: nat, ghost mem0: Memory, ghost free0: set<nat>,
                 ghost others: set<nat>)
    returns (res: AllocResult)
    requires k.Valid() && Own(mem0, dir, free0, others) && SameOn(mem0, k.mem, Owned(mem0, dir) + others)
    requires Own(k.mem, d, k.Free(), Owned(mem0, dir) + others) && v < USERPAGES && Present(Ptes(mem0, dir)[v])
    requires Copied(Ptes(mem0, dir), mem0, Ptes(k.mem, d), k.mem, v, data)
    modifies k
    ensures k.Valid() && SameOn(mem0, k.mem, Owned(mem0, dir) + others)
    ensures res.Mapped? ==> Own(k.mem, d, k.Free(), Owned(mem0, dir) + others)
    ensures res.Mapped? ==> Copied(Ptes(mem0, dir), mem0, Ptes(k.mem, d), k.mem, v + 1, data)
    ensures res.Mapped? ==>
              |old(k.free)| > 0 && Took(Pd(old(k.mem), d), Pd(k.mem, d), |old(k.free)| - 1, |k.free|, v, v + 1)
    ensures res.NoPage? ==> old(k.free) == [] && Own(k.mem, d, k.Free(), Owned(mem0, dir) + others)
    ensures res.NoTable? ==> |old(k.free)| == 1 && v / NENTRIES !in Dirs(Pd(old(k.mem), d))
    ensures res.NoTable? ==> res.page !in Owned(mem0, dir) + others && res.page in k.mem
    ensures res.NoTable? ==> Own(k.mem, d, k.Free(), Owned(mem0, dir) + others + {res.page})
  {
    hide Tables;
    hide Ptes;
    hide Own;
    hide Owned;
    hide Took;
    hide Dirs;
    hide Copied;
    hide SameOn;
    ghost var rest, mem, m := Owned(mem0, dir) + others, k.mem, Ptes(k.mem, d);
    SourceIntact(mem0, mem, dir, free0, others, d, k.Free());
    SourceFrame(mem0, mem, dir, free0, others, v);
    CopiedAbsent(Ptes(mem0, dir), mem0, m, mem, v, data);
    var t := Walkpgdir(k, dir, v, false);
    PresentEntry(k.mem, dir, v, t);
    var pte := k.mem[t][v % NENTRIES];
    var p;
    res, p := PlacePage(k, d, v, k.mem[Frame(pte)], Flags(pte), rest);
    SameOnTwice(mem0, mem, k.mem, rest);
    if res.Mapped? {
      CopiedOneMore(Ptes(mem0, dir), mem0, m, Ptes(k.mem, d), mem, k.mem, v, p, data);
    }
  }

  lemma PresentEntry(mem: Memory, dir: nat, v: nat, t: nat)
    requires DirOk(mem, dir) && v < NPAGES && Present(Ptes(mem, dir)[v])
    ensures Present(mem[dir][v / NENTRIES])
    ensures t == Frame(mem[dir][v / NENTRIES]) ==> t in mem && mem[t][v % NENTRIES] == Ptes(mem, dir)[v]
  {
  }

  /* The failure paths of copyuvm: the page in hand and the whole copy are given back. */
  method Abandon(k: Kmem, d: nat, res: AllocResult, ghost rest: set<nat>, ghost free0: set<nat>)
    requires k.Valid() && !res.Mapped? && Partition(k.mem.Keys, {}, free0, rest)
    requires res.NoPage? ==> Own(k.mem, d, k.Free(), rest)
    requires res.NoTable? ==> res.page !in rest && res.page in k.mem && Own(k.mem, d, k.Free(), rest + {res.page})
    modifies k
    ensures k.Valid() && SameOn(old(k.mem), k.mem, rest) && k.Free() == free0
  {
    hide DirOk;
    hide Ptes;
    hide Tables;
    hide Own;
    hide Partition;
    hide Owned;
    if res.NoTable? {
      ghost var mem1, free1 := k.mem, k.Free();
      NotTable(mem1, d, free1, rest, res.page);
      var ok := k.Kfree(res.page);
      OwnShift(mem1, k.mem, d, free1, rest + {res.page}, k.Free(), rest);
    }
    ghost var mem2, free2 := k.mem, k.Free();
    Freevm(k, d, rest);
    AllBack(mem2, d, free2, rest, free0);
  }

  lemma LowDirs(hi: nat)
    requires hi <= USERPAGES
    ensures DirsOf(0, hi) !! KernelDirs()
  {
    assert forall i :: i in DirsOf(0, hi) ==> i < USERPAGES / NENTRIES;
    assert forall i :: i in KernelDirs() ==> i >= USERPAGES / NENTRIES;
  }

  lemma UserCost(pd: Page, hi: nat)
    requires Dirs(pd) == KernelDirs() && hi <= USERPAGES
    ensures Cost(pd, 0, hi) == hi + (hi + NENTRIES - 1) / NENTRIES
  {
    hide Dirs;
    hide DirsOf;
    hide KernelDirs;
    DirsCount(0, hi);
    LowDirs(hi);
    assert DirsOf(0, hi) - Dirs(pd) == DirsOf(0, hi);
  }

  /* One of the first hi pages is not mapped. */
  ghost predicate Absent(m: seq<word>, hi: nat) {
    exists v: nat :: v < hi && v < |m| && !Present(m[v])
  }

  /* The two tests of copyuvm on a page of the source. */
  method Mapped(k: Kmem, dir: nat, v: nat) returns (b: bool)
    requires k.Valid() && Base(k.mem, dir, k.Free()) && v < USERPAGES
    modifies k
    ensures k.Valid() && k.mem == old(k.mem) && k.free == old(k.free)
    ensures b <==> Present(Ptes(k.mem, dir)[v])
  {
    var t := Walkpgdir(k, dir, v, false);
    if t == 0 {
      return false;
    }
    return Present(k.mem[t][v % NENTRIES]);
  }

  /* The loop of copyuvm; `halted` where it panics on a page that is not mapped. */
  method CopyPages(k: Kmem, dir: nat, d: nat, sz: nat, data: nat, ghost mem0: Memory, ghost free0: set<nat>,
                   ghost others: set<nat>)
    returns (ok: bool, halted: bool)
    requires k.Valid() && Own(mem0, dir, free0, others) && sz <= KERNBASE
             && SameOn(mem0, k.mem, Owned(mem0, dir) + others)
    requires Partition(mem0.Keys, {}, free0, Owned(mem0, dir) + others)
    requires Own(k.mem, d, k.Free(), Owned(mem0, dir) + others) && KernelOnly(Ptes(k.mem, d), data, KMAPROWS)
    modifies k
    ensures k.Valid() && SameOn(mem0, k.mem, Owned(mem0, dir) + others)
    ensures halted || ok ==> (halted <==> Absent(Ptes(mem0, dir), PgRoundUp(sz)))
    ensures !halted ==> (ok <==> |old(k.free)| >= Cost(Pd(old(k.mem), d), 0, PgRoundUp(sz)))
    ensures ok ==> Own(k.mem, d, k.Free(), Owned(mem0, dir) + others)
    ensures ok ==> Copied(Ptes(mem0, dir), mem0, Ptes(k.mem, d), k.mem, PgRoundUp(sz), data)
    ensures !ok && !halted ==> k.Free() == free0
  {
    hide DirOk;
    hide Ptes;
    hide Tables;
    hide Own;
    hide Partition;
    hide Owned;
    hide Took;
    hide Dirs;
    hide DirsOf;
    hide Cost;
    hide Copied;
    hide SameOn;
    hide KernelOnly;
    hide Kmem.Valid;
    hide Elems;
    hide PgRoundUp;
    ghost var pd1, n1, rest := Pd(k.mem, d), |k.free|, Owned(mem0, dir) + others;
    ghost var hi := PgRoundUp(sz);
    CopiedNone(Ptes(mem0, dir), mem0, Ptes(k.mem, d), k.mem, data);
    TookNone(pd1, n1, 0);
    Rounds(0, sz);
    var v := 0;
    while v * PGSIZE < sz
      invariant 0 <= v <= hi && k.Valid() && SameOn(mem0, k.mem, rest)
      invariant Own(k.mem, d, k.Free(), rest) && Copied(Ptes(mem0, dir), mem0, Ptes(k.mem, d), k.mem, v, data)
      invariant n1 >= v && Took(pd1, Pd(k.mem, d), n1 - v, |k.free|, 0, v)
      invariant v * PGSIZE < sz <==> v < hi
      invariant forall u: nat :: u < v ==> Present(Ptes(mem0, dir)[u])
      decreases hi - v
    {
      Rounds(v + 1, sz);
      SourceIntact(mem0, k.mem, dir, free0, others, d, k.Free());
      var there := Mapped(k, dir, v);
      if !there {
        return false, true;
      }
      ghost var pd, n := Pd(k.mem, d), |k.free|;
      var res := CopyOne(k, dir, d, v, data, mem0, free0, others);
      if !res.Mapped? {
        SpentAll(pd1, pd, n1, n, 0, v, hi);
        ghost var mem1 := k.mem;
        KeysKept(mem0, mem1, rest);
        Abandon(k, d, res, rest, free0);
        SameOnTwice(mem0, mem1, k.mem, rest);
        return false, false;
      }
      SpentOneMore(pd1, pd, Pd(k.mem, d), n1, n, |k.free|, 0, v);
      v := v + 1;
    }
    SpentExactly(pd1, Pd(k.mem, d), n1, |k.free|, 0, hi);
    return true, false;
  }

  /* copyuvm: a second address space with equal bytes and flags on pages of its own, or 0
     with every page given back; the original is untouched either way.  It fails exactly
     when the pages and tables of the copy exceed the free pages, and panics, so that ok is
     false, at a page that is not mapped if it gets that far. */
  method Copyuvm(k: Kmem, dir: nat, sz: nat, data: nat, ghost others: set<nat>) returns (d: nat, ok: bool)
    requires k.Valid() && Own(k.mem, dir, k.Free(), others) && sz <= KERNBASE && DataOk(data)
    modifies k
    ensures k.Valid() && SameOn(old(k.mem), k.mem, old(Owned(k.mem, dir)) + others)
    ensures Ptes(k.mem, dir) == old(Ptes(k.mem, dir))
    ensures !ok || d != 0 ==> (!ok <==> Absent(old(Ptes(k.mem, dir)), PgRoundUp(sz)))
    ensures ok ==> (d == 0 <==> |old(k.free)| < 65 + PgRoundUp(sz) + (PgRoundUp(sz) + NENTRIES - 1) / NENTRIES)
    ensures ok && d == 0 ==> k.Free() == old(k.Free()) && Own(k.mem, dir, k.Free(), others)
    ensures ok && d != 0 ==> Own(k.mem, d, k.Free(), old(Owned(k.mem, dir)) + others)
    ensures ok && d != 0 ==> Own(k.mem, dir, k.Free(), others + Owned(k.mem, d))
    ensures ok && d != 0 ==> Copied(old(Ptes(k.mem, dir)), old(k.mem), Ptes(k.mem, d), k.mem, PgRoundUp(sz), data)
    ensures ok && d != 0 ==> forall v :: 0 <= v < PgRoundUp(sz) && v < USERPAGES ==>
                               AccessAt(k.mem, d, v) == AccessAt(old(k.mem), dir, v)
  {
    hide AccessAt;
    hide DirOk;
    hide Ptes;
    hide Tables;
    hide Own;
    hide Partition;
    hide Owned;
    hide Dirs;
    hide Cost;
    hide Copied;
    hide SameOn;
    hide KernelOnly;
    hide KernelDirs;
    hide Kmem.Valid;
    hide Elems;
    hide PgRoundUp;
    ghost var mem0, free0, rest := k.mem, k.Free(), Owned(k.mem, dir) + others;
    SplitOff(mem0, dir, free0, others);
    Rounds(0, sz);
    d := Setupkvm(k, data, rest);
    if d == 0 {
      OwnAfter(mem0, k.mem, dir, free0, others);
      return 0, true;
    }
    UserCost(Pd(k.mem, d), PgRoundUp(sz));
    var copied, halted := CopyPages(k, dir, d, sz, data, mem0, free0, others);
    if halted {
      SourceSame(mem0, k.mem, dir, free0, others);
      return d, false;
    }
    if !copied {
      OwnAfter(mem0, k.mem, dir, free0, others);
      return 0, true;
    }
    SourceIntact(mem0, k.mem, dir, free0, others, d, k.Free());
    NotNull(k, d, rest);
    CopiedAccess(mem0, dir, free0, others, k.mem, d, k.Free(), rest, PgRoundUp(sz), data);
    return d, true;
  }

  /* A copied page allows what the original allows. */
  lemma CopiedAccess(mem0: Memory, dir: nat, free0: set<nat>, others: set<nat>, mem: Memory, d: nat, free: set<nat>,
                     rest: set<nat>, n: nat, data: nat)
    requires Own(mem0, dir, free0, others) && Own(mem, d, free, rest)
    requires Copied(Ptes(mem0, dir), mem0, Ptes(mem, d), mem, n, data)
    ensures forall v :: 0 <= v < n && v < USERPAGES ==> AccessAt(mem, d, v) == AccessAt(mem0, dir, v)
  {
    hide Ptes;
    hide Apart;
    hide Partition;
    hide DirOk;
    hide AccessAt;
    forall v | 0 <= v < n && v < USERPAGES ensures AccessAt(mem, d, v) == AccessAt(mem0, dir, v) {
      assert CopiedPage(Ptes(mem0, dir)[v], mem0, Ptes(mem, d)[v], mem);
      Bits(Ptes(mem0, dir)[v]);
      Bits(Ptes(mem, d)[v]);
      SameAccess(mem, d, mem0, dir, v);
    }
  }

  lemma SourceSame(mem0: Memory, mem: Memory, dir: nat, free0: set<nat>, others: set<nat>)
    requires Own(mem0, dir, free0, others) && SameOn(mem0, mem, Owned(mem0, dir) + others)
    ensures Ptes(mem, dir) == Ptes(mem0, dir)
  {
    hide Pte;
    SameTable(mem0, mem, dir);
  }

  lemma NotNull(k: Kmem, d: nat, rest: set<nat>)
    requires k.Valid() && Own(k.mem, d, k.Free(), rest)
    ensures d != 0
  {
  }

  lemma Rounds(v: nat, sz: nat)
    requires sz <= KERNBASE
    ensures PgRoundUp(sz) <= USERPAGES && (v * PGSIZE < sz <==> v < PgRoundUp(sz))
  {
  }

  lemma KeysKept(mem0: Memory, mem: Memory, pages: set<nat>)
    requires SameOn(mem0, mem, pages)
    ensures mem.Keys == mem0.Keys
  {
  }

  lemma SplitOff(mem: Memory, dir: nat, free: set<nat>, others: set<nat>)
    requires Own(mem, dir, free, others)
    ensures Partition(mem.Keys, {}, free, Owned(mem, dir) + others)
  {
  }

  lemma OwnAfter(mem0: Memory, mem: Memory, dir: nat, free: set<nat>, others: set<nat>)
    requires Own(mem0, dir, free, others) && SameOn(mem0, mem, Owned(mem0, dir) + others)
    ensures Own(mem, dir, free, others) && Ptes(mem, dir) == Ptes(mem0, dir)
  {
    hide Pte;
    OwnShift(mem0, mem, dir, free, others, free, others);
  }
}
