/**
The two-level page table of 32-bit paging as vm.c uses it: a directory page of 1024
entries, each of which may point to a table page of 1024 entries.  `Ptes` reads a
directory as one flat table of 2^20 page-table entries; `Own` says who owns which page.
*/
module Paging {

  const PGSIZE: nat := 4096
  const NENTRIES: nat := 1024
  const NPAGES: nat := 0x10_0000
  const KERNBASE: nat := 0x8000_0000
  const USERPAGES: nat := 0x8_0000
  const PTE_P: nat := 1
  const PTE_W: nat := 2
  const PTE_U: nat := 4

  type word = x: int | 0 <= x < 0x1_0000_0000
  type Page = p: seq<word> | |p| == NENTRIES witness seq(NENTRIES, i => 0)

  /* Physical memory by page number. */
  type Memory = map<nat, Page>

  function ZeroPage(): (p: Page)
    ensures forall i :: 0 <= i < NENTRIES ==> p[i] == 0
  {
    seq(NENTRIES, i => 0)
  }

  predicate Present(w: word) {
    w % 2 == 1
  }

  function Frame(w: word): nat {
    w / PGSIZE
  }

  function Flags(w: word): nat {
    w % PGSIZE
  }

  /* pa | perm | PTE_P for a page-aligned pa. */
  function Entry(frame: nat, perm: nat): (w: word)
    requires frame < NPAGES && perm < PGSIZE
    ensures Present(w) && Frame(w) == frame && Flags(w) == if perm % 2 == 1 then perm else perm + 1
  {
    var flags := if perm % 2 == 1 then perm else perm + PTE_P;
    Composed(frame, flags);
    frame * PGSIZE + flags
  }

  lemma Composed(frame: nat, flags: nat)
    requires flags < PGSIZE
    ensures var w := frame * PGSIZE + flags; w / PGSIZE == frame && w % PGSIZE == flags && w % 2 == flags % 2
  {
    assert (2048 * frame * 2 + flags) % 2 == flags % 2;
  }

  // ----- the flat table

  /* Every present directory entry points to a page of its own, not the directory, and lets
     everything through. */
  ghost predicate DirOk(mem: Memory, dir: nat) {
    && dir in mem
    && (forall i :: 0 <= i < NENTRIES && Present(mem[dir][i]) ==> Flags(mem[dir][i]) == PTE_P + PTE_W + PTE_U)
    && (forall i :: 0 <= i < NENTRIES && Present(mem[dir][i]) ==>
          Frame(mem[dir][i]) in mem && Frame(mem[dir][i]) != dir)
    && (forall i, j :: 0 <= i < j < NENTRIES && Present(mem[dir][i]) && Present(mem[dir][j]) ==>
          Frame(mem[dir][i]) != Frame(mem[dir][j]))
  }

  /* The directory page. */
  function Pd(mem: Memory, dir: nat): Page {
    if dir in mem then mem[dir] else ZeroPage()
  }

  ghost function Tables(mem: Memory, dir: nat): (r: set<nat>)
    ensures dir in mem ==> forall i :: 0 <= i < NENTRIES && Present(mem[dir][i]) ==> Frame(mem[dir][i]) in r
  {
    if dir in mem then set i | 0 <= i < NENTRIES && Present(mem[dir][i]) :: Frame(mem[dir][i]) else {}
  }

  function Pte(mem: Memory, dir: nat, v: nat): word
    requires v < NPAGES
  {
    if dir in mem && Present(mem[dir][v / NENTRIES]) && Frame(mem[dir][v / NENTRIES]) in mem
    then mem[Frame(mem[dir][v / NENTRIES])][v % NENTRIES]
    else 0
  }

  ghost function Ptes(mem: Memory, dir: nat): (m: seq<word>)
    ensures |m| == NPAGES && forall v :: 0 <= v < NPAGES ==> m[v] == Pte(mem, dir, v)
  {
    seq(NPAGES, v requires 0 <= v < NPAGES => Pte(mem, dir, v))
  }

  /* Writing the entry of virtual page v. */
  lemma SetPte(mem: Memory, dir: nat, v: nat, w: word)
    requires DirOk(mem, dir) && v < NPAGES && Present(mem[dir][v / NENTRIES])
    ensures var t := Frame(mem[dir][v / NENTRIES]);
            var mem' := mem[t := mem[t][v % NENTRIES := w]];
            DirOk(mem', dir) && Tables(mem', dir) == Tables(mem, dir) && Ptes(mem', dir) == Ptes(mem, dir)[v := w]
  {
    var t := Frame(mem[dir][v / NENTRIES]);
    var mem' := mem[t := mem[t][v % NENTRIES := w]];
    var m, m' := Ptes(mem, dir), Ptes(mem', dir);
    assert mem'[dir] == mem[dir];
    assert DirOk(mem', dir);
    forall u | 0 <= u < NPAGES ensures m'[u] == m[v := w][u] {
      if u / NENTRIES == v / NENTRIES && u != v {
        assert u % NENTRIES != v % NENTRIES;
      }
    }
  }

  /* A fresh, zeroed table page maps nothing. */
  lemma AddTable(mem: Memory, dir: nat, i: nat, t: nat, perm: nat)
    requires DirOk(mem, dir) && i < NENTRIES && !Present(mem[dir][i])
    requires t in mem && t != dir && t !in Tables(mem, dir) && t < NPAGES && perm == PTE_W + PTE_U
    ensures var mem' := mem[t := ZeroPage()][dir := mem[dir][i := Entry(t, perm)]];
            DirOk(mem', dir) && Tables(mem', dir) == Tables(mem, dir) + {t} && Ptes(mem', dir) == Ptes(mem, dir)
  {
    var mem' := mem[t := ZeroPage()][dir := mem[dir][i := Entry(t, perm)]];
    assert mem'[dir] == mem[dir][i := Entry(t, perm)];
    assert forall j :: 0 <= j < NENTRIES && j != i ==> mem'[dir][j] == mem[dir][j];
    assert DirOk(mem', dir);
    assert Tables(mem', dir) == Tables(mem, dir) + {t} by {
      assert mem'[dir][i] == Entry(t, perm);
      forall x | x in Tables(mem, dir) ensures x in Tables(mem', dir) {
        var j :| 0 <= j < NENTRIES && Present(mem[dir][j]) && Frame(mem[dir][j]) == x;
        assert mem'[dir][j] == mem[dir][j];
      }
    }
    var m, m' := Ptes(mem, dir), Ptes(mem', dir);
    forall v | 0 <= v < NPAGES ensures m'[v] == m[v] {
    }
  }

  /* Pages outside the directory and its tables do not matter. */
  lemma SameTable(mem: Memory, mem': Memory, dir: nat)
    requires DirOk(mem, dir) && mem.Keys <= mem'.Keys && mem'[dir] == mem[dir]
    requires forall t :: t in Tables(mem, dir) ==> mem'[t] == mem[t]
    ensures DirOk(mem', dir) && Tables(mem', dir) == Tables(mem, dir) && Ptes(mem', dir) == Ptes(mem, dir)
  {
    assert DirOk(mem', dir);
    var m, m' := Ptes(mem, dir), Ptes(mem', dir);
    forall v | 0 <= v < NPAGES ensures m'[v] == m[v] {
    }
  }

  // ----- what the hardware allows

  predicate Writable(w: word) {
    w / PTE_W % 2 == 1
  }

  predicate User(w: word) {
    w / PTE_U % 2 == 1
  }

  datatype Access = Access(present: bool, writable: bool, user: bool)

  /* What may be done at virtual page v: what its directory entry and its table entry both
     allow. */
  function AccessAt(mem: Memory, dir: nat, v: nat): Access
    requires v < NPAGES
  {
    var pde, pte := Pd(mem, dir)[v / NENTRIES], Pte(mem, dir, v);
    Access(Present(pde) && Present(pte), Writable(pde) && Writable(pte), User(pde) && User(pte))
  }

  /* So the table entry decides. */
  lemma TableDecides(mem: Memory, dir: nat, v: nat)
    requires DirOk(mem, dir) && v < NPAGES && Present(Ptes(mem, dir)[v])
    ensures var w := Ptes(mem, dir)[v]; AccessAt(mem, dir, v) == Access(true, Writable(w), User(w))
  {
    var pde := mem[dir][v / NENTRIES];
    Bits(pde);
  }

  lemma Bits(w: word)
    ensures Writable(w) <==> Flags(w) / PTE_W % 2 == 1
    ensures User(w) <==> Flags(w) / PTE_U % 2 == 1
    ensures Present(w) <==> Flags(w) % 2 == 1
  {
    var f, x := w / PGSIZE, w % PGSIZE;
    assert w == PGSIZE * f + x;
    assert w / PTE_W == 2048 * f + x / PTE_W;
    assert w / PTE_U == 1024 * f + x / PTE_U;
  }

  /* A page mapped with these permissions allows exactly them. */
  lemma EntryAccess(mem: Memory, dir: nat, v: nat, frame: nat, perm: nat)
    requires DirOk(mem, dir) && v < NPAGES && frame < NPAGES && perm < PGSIZE && Ptes(mem, dir)[v] == Entry(frame, perm)
    ensures AccessAt(mem, dir, v) == Access(true, perm / PTE_W % 2 == 1, perm / PTE_U % 2 == 1)
  {
    hide AccessAt;
    hide Entry;
    hide Writable;
    hide User;
    TableDecides(mem, dir, v);
    Bits(Entry(frame, perm));
    assert perm % 2 == 0 ==> (perm + 1) / PTE_W == perm / PTE_W && (perm + 1) / PTE_U == perm / PTE_U;
  }

  /* Two pages with equal flags allow the same. */
  lemma SameAccess(mem: Memory, dir: nat, mem': Memory, dir': nat, v: nat)
    requires DirOk(mem, dir) && DirOk(mem', dir') && v < NPAGES
    requires Present(Ptes(mem, dir)[v]) && Present(Ptes(mem', dir')[v])
    requires Flags(Ptes(mem, dir)[v]) == Flags(Ptes(mem', dir')[v])
    ensures AccessAt(mem, dir, v) == AccessAt(mem', dir', v)
  {
    hide AccessAt;
    hide Writable;
    hide User;
    TableDecides(mem, dir, v);
    TableDecides(mem', dir', v);
    Bits(Ptes(mem, dir)[v]);
    Bits(Ptes(mem', dir')[v]);
  }

  // ----- who owns a page

  /* The pages mapped below KERNBASE, which belong to the process. */
  ghost function UserFrames(m: seq<word>): (r: set<nat>)
    requires |m| == NPAGES
    ensures forall v :: 0 <= v < USERPAGES && Present(m[v]) ==> Frame(m[v]) in r
  {
    set v | 0 <= v < USERPAGES && Present(m[v]) :: Frame(m[v])
  }

  ghost predicate UserInjective(m: seq<word>)
    requires |m| == NPAGES
  {
    forall u, v :: 0 <= u < v < USERPAGES && Present(m[u]) && Present(m[v]) ==> Frame(m[u]) != Frame(m[v])
  }

  /* Everything that freevm must give back. */
  ghost function Owned(mem: Memory, dir: nat): set<nat> {
    {dir} + Tables(mem, dir) + UserFrames(Ptes(mem, dir))
  }

  /* Free pages, the directory, its tables, its user pages and the pages of `others` are
     disjoint and are all the pages there are. */
  ghost predicate Own(mem: Memory, dir: nat, free: set<nat>, others: set<nat>) {
    && DirOk(mem, dir)
    && Apart(dir, Tables(mem, dir), Ptes(mem, dir))
    && Partition(mem.Keys, Owned(mem, dir), free, others)
  }

  ghost predicate Apart(dir: nat, tables: set<nat>, m: seq<word>)
    requires |m| == NPAGES
  {
    UserInjective(m) && dir !in tables && UserFrames(m) !! tables && dir !in UserFrames(m)
  }

  ghost predicate Partition(all: set<nat>, owned: set<nat>, free: set<nat>, others: set<nat>) {
    all == owned + free + others && owned !! free && owned !! others && free !! others
  }

  lemma MapUser(m: seq<word>, v: nat, w: word)
    requires |m| == NPAGES && v < NPAGES && UserInjective(m) && !Present(m[v]) && Present(w)
    requires v < USERPAGES ==> Frame(w) !in UserFrames(m)
    ensures UserInjective(m[v := w])
    ensures UserFrames(m[v := w]) == UserFrames(m) + (if v < USERPAGES then {Frame(w)} else {})
  {
    var m' := m[v := w];
    assert m'[v] == w;
    forall x | x in UserFrames(m) ensures x in UserFrames(m') {
      var u :| 0 <= u < USERPAGES && Present(m[u]) && Frame(m[u]) == x;
      assert m'[u] == m[u];
    }
  }

  lemma UnmapUser(m: seq<word>, v: nat)
    requires |m| == NPAGES && v < USERPAGES && UserInjective(m) && Present(m[v])
    ensures UserInjective(m[v := 0]) && UserFrames(m[v := 0]) == UserFrames(m) - {Frame(m[v])}
  {
    var m' := m[v := 0];
    forall x | x in UserFrames(m) - {Frame(m[v])} ensures x in UserFrames(m') {
      var u :| 0 <= u < USERPAGES && Present(m[u]) && Frame(m[u]) == x;
      assert m'[u] == m[u];
    }
    forall x | x in UserFrames(m') ensures x in UserFrames(m) - {Frame(m[v])} {
      var u :| 0 <= u < USERPAGES && Present(m'[u]) && Frame(m'[u]) == x;
      assert u != v && m'[u] == m[u];
    }
  }
}
