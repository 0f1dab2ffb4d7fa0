/**
The user-level allocator of umalloc.c: a circular, address-ordered list of free blocks
with coalescing.  Addresses and sizes count units of sizeof(Header), 8 bytes; a block
starts with its header, and malloc hands out the unit after it.
*/
module Heap {

  const HEADER: nat := 8
  const MINCORE: nat := 4096

  /* Units malloc asks for, as 32-bit unsigned arithmetic computes them. */
  function UnitsFor(nbytes: nat): (n: nat)
    ensures n >= 1
  {
    (nbytes + HEADER - 1) % 0x1_0000_0000 / HEADER + 1
  }

  /* The units behind the header hold the request exactly when the sum did not wrap, and one
     less would not. */
  lemma UnitsHoldRequest(nbytes: nat)
    requires nbytes < 0x1_0000_0000
    ensures (UnitsFor(nbytes) - 1) * HEADER >= nbytes <==> nbytes <= 0xFFFF_FFF8
    ensures (UnitsFor(nbytes) - 2) * HEADER < nbytes
  {
  }

  // ----- sets of blocks: start addresses with the sizes stored in their headers

  predicate Sized(bs: set<int>, size: map<int, int>) {
    forall b :: b in bs ==> b in size && size[b] >= 1
  }

  /* Unit u belongs to block b. */
  predicate Within(b: int, size: map<int, int>, u: int) {
    b in size && b <= u < b + size[b]
  }

  /* No two blocks overlap. */
  ghost predicate Apart(bs: set<int>, size: map<int, int>)
    requires Sized(bs, size)
  {
    forall b, c :: b in bs && c in bs && b != c ==> b + size[b] <= c || c + size[c] <= b
  }

  /* No block ends where another begins: neighbours have been merged. */
  ghost predicate Coalesced(bs: set<int>, size: map<int, int>)
    requires Sized(bs, size)
  {
    forall b, c :: b in bs && c in bs ==> b + size[b] != c
  }

  ghost predicate Has(bs: set<int>, size: map<int, int>, u: int) {
    exists b :: b in bs && Within(b, size, u)
  }

  /* The units of the blocks are exactly `units`. */
  ghost predicate Fills(bs: set<int>, size: map<int, int>, units: set<int>) {
    forall u :: u in units <==> Has(bs, size, u)
  }

  ghost function Range(a: int, n: nat): (r: set<int>)
    ensures forall u :: u in r <==> a <= u < a + n
  {
    if n == 0 then {} else Range(a, n - 1) + {a + n - 1}
  }

  /* Coalesced free blocks are determined by the units they cover: there is only one
     fully merged list for a given set of free units. */
  lemma CanonicalFreeList(bs: set<int>, size: map<int, int>, cs: set<int>, size': map<int, int>)
    requires Sized(bs, size) && Apart(bs, size) && Coalesced(bs, size)
    requires Sized(cs, size') && Apart(cs, size') && Coalesced(cs, size')
    requires forall u :: Has(bs, size, u) <==> Has(cs, size', u)
    ensures bs == cs && forall b :: b in bs ==> size[b] == size'[b]
  {
    forall b | b in bs ensures b in cs && size[b] <= size'[b] {
      SameBlock(bs, size, cs, size', b);
    }
    forall b | b in cs ensures b in bs && size'[b] <= size[b] {
      SameBlock(cs, size', bs, size, b);
    }
  }

  /* The units just before and just after a merged free block are not free. */
  lemma FreeBounds(bs: set<int>, size: map<int, int>, b: int)
    requires Sized(bs, size) && Apart(bs, size) && Coalesced(bs, size) && b in bs
    ensures !Has(bs, size, b - 1) && !Has(bs, size, b + size[b])
  {
  }

  lemma SameBlock(bs: set<int>, size: map<int, int>, cs: set<int>, size': map<int, int>, b: int)
    requires Sized(bs, size) && Apart(bs, size) && Coalesced(bs, size)
    requires Sized(cs, size') && Apart(cs, size') && Coalesced(cs, size')
    requires forall u :: Has(bs, size, u) <==> Has(cs, size', u)
    requires b in bs
    ensures b in cs && size[b] <= size'[b]
  {
    FreeBounds(bs, size, b);
    assert Within(b, size, b);
    assert Has(bs, size, b);
    var c :| c in cs && Within(c, size', b);
    assert c == b by {
      assert !Has(cs, size', b - 1);
      assert !Within(c, size', b - 1);
    }
    FreeBounds(cs, size', b);
    var e := b + size'[b];
    assert !Has(bs, size, e);
    assert !Within(b, size, e);
  }

  /* Merging b with the block c that follows it changes neither the units covered nor
     the disjointness of the blocks. */
  lemma Merge(bs: set<int>, size: map<int, int>, b: int, c: int)
    requires Sized(bs, size) && Apart(bs, size) && b in bs && c in bs && b + size[b] == c
    ensures var bs', size' := bs - {c}, size[b := size[b] + size[c]];
            Sized(bs', size') && Apart(bs', size') && forall u :: Has(bs, size, u) <==> Has(bs', size', u)
  {
    var bs', size' := bs - {c}, size[b := size[b] + size[c]];
    forall u ensures Has(bs, size, u) <==> Has(bs', size', u) {
      if Has(bs, size, u) {
        var d :| d in bs && Within(d, size, u);
        if d == c { assert Within(b, size', u); } else { assert Within(d, size', u); }
      }
      if Has(bs', size', u) {
        var d :| d in bs' && Within(d, size', u);
        if d == b && u >= c { assert Within(c, size, u); } else { assert Within(d, size, u); }
      }
    }
  }

  /* Cutting the last n units off block b leaves the same units in two disjoint blocks. */
  lemma Split(bs: set<int>, size: map<int, int>, b: int, n: int)
    requires Sized(bs, size) && Apart(bs, size) && b in bs && 1 <= n < size[b]
    ensures var t := b + size[b] - n;
            var bs', size' := bs + {t}, size[b := size[b] - n][t := n];
            && t !in bs && Sized(bs', size') && Apart(bs', size')
            && forall u :: Has(bs, size, u) <==> Has(bs', size', u)
  {
    var t := b + size[b] - n;
    var bs', size' := bs + {t}, size[b := size[b] - n][t := n];
    assert t !in bs;
    forall u ensures Has(bs, size, u) <==> Has(bs', size', u) {
      if Has(bs, size, u) {
        var d :| d in bs && Within(d, size, u);
        if d == b && u >= t { assert Within(t, size', u); } else { assert Within(d, size', u); }
      }
      if Has(bs', size', u) {
        var d :| d in bs' && Within(d, size', u);
        if d == t { assert Within(b, size, u); } else { assert Within(d, size, u); }
      }
    }
  }

  // ----- the circular list

  function Next(list: seq<int>, i: nat): int
    requires i < |list|
  {
    if i + 1 < |list| then list[i + 1] else list[0]
  }

  /* Following ptr runs through `list` and back to its first element. */
  ghost predicate Linked(list: seq<int>, ptr: map<int, int>) {
    && (forall i :: 0 <= i < |list| ==> list[i] in ptr)
    && (forall i {:trigger Next(list, i)} :: 0 <= i < |list| ==> ptr[list[i]] == Next(list, i))
  }

  ghost predicate Sorted(list: seq<int>) {
    forall i, j :: 0 <= i < j < |list| ==> list[i] < list[j]
  }

  /* The free blocks: everything on the list but its anchor `base`. */
  function Tail(list: seq<int>): set<int>
    requires list != []
  {
    set i | 1 <= i < |list| :: list[i]
  }

  /* bp belongs between list[t] and its successor. */
  ghost predicate Gap(list: seq<int>, t: nat, bp: int) {
    t < |list| && list[t] < bp && (t + 1 < |list| ==> bp < list[t + 1])
  }

  lemma GapExists(list: seq<int>, bp: int) returns (t: nat)
    requires list != [] && Sorted(list) && list[0] < bp && forall i :: 0 <= i < |list| ==> list[i] != bp
    ensures Gap(list, t, bp)
  {
    t := 0;
    while t + 1 < |list| && list[t + 1] < bp
      invariant t < |list| && list[t] < bp
    {
      t := t + 1;
    }
  }

  /* The exit test of the search loop of free holds at the gap and nowhere else. */
  predicate Stops(p: int, next: int, bp: int) {
    (bp > p && bp < next) || (p >= next && (bp > p || bp < next))
  }

  lemma StopsOnlyAtGap(list: seq<int>, t: nat, bp: int, i: nat)
    requires Sorted(list) && Gap(list, t, bp) && i < |list| && list[0] < bp
    ensures Stops(list[i], Next(list, i), bp) <==> i == t
  {
  }

  function Inserted(list: seq<int>, t: nat, bp: int): seq<int>
    requires t < |list|
  {
    list[..t + 1] + [bp] + list[t + 1..]
  }

  function Removed(list: seq<int>, k: nat): seq<int>
    requires k < |list|
  {
    list[..k] + list[k + 1..]
  }

  lemma InsertSorted(list: seq<int>, t: nat, bp: int)
    requires Sorted(list) && Gap(list, t, bp)
    ensures Sorted(Inserted(list, t, bp)) && Tail(Inserted(list, t, bp)) == Tail(list) + {bp}
  {
    var list' := Inserted(list, t, bp);
    forall i, j | 0 <= i < j < |list'| ensures list'[i] < list'[j] {
      if j <= t {
        assert list[i] < list[j];
      }
    }
    forall i | 1 <= i < |list| ensures list[i] in Tail(list') {
      assert list'[if i <= t then i else i + 1] == list[i];
    }
    assert list'[t + 1] == bp;
  }

  lemma InsertLink(list: seq<int>, ptr: map<int, int>, t: nat, bp: int)
    requires Sorted(list) && Linked(list, ptr) && Gap(list, t, bp)
    requires forall i :: 0 <= i < |list| ==> list[i] != bp
    ensures Linked(Inserted(list, t, bp), ptr[bp := Next(list, t)][list[t] := bp])
  {
    var list', ptr' := Inserted(list, t, bp), ptr[bp := Next(list, t)][list[t] := bp];
    forall i | 0 <= i < |list'| ensures list'[i] in ptr' && ptr'[list'[i]] == Next(list', i) {
      if i < t {
        assert list'[i] == list[i] < list[t] && Next(list', i) == Next(list, i);
      } else if i > t + 1 {
        assert list'[i] == list[i - 1] > list[t] && Next(list', i) == Next(list, i - 1);
      }
    }
  }

  lemma RemoveSorted(list: seq<int>, k: nat)
    requires Sorted(list) && 0 < k < |list|
    ensures Sorted(Removed(list, k)) && Tail(Removed(list, k)) == Tail(list) - {list[k]}
  {
    var list' := Removed(list, k);
    forall i | 1 <= i < |list| && i != k ensures list[i] in Tail(list') {
      assert list'[if i < k then i else i - 1] == list[i];
    }
    assert list[k] !in Tail(list');
  }

  lemma RemoveLink(list: seq<int>, ptr: map<int, int>, k: nat)
    requires Sorted(list) && Linked(list, ptr) && 0 < k < |list|
    ensures Linked(Removed(list, k), ptr[list[k - 1] := ptr[list[k]]])
  {
    var list', ptr' := Removed(list, k), ptr[list[k - 1] := ptr[list[k]]];
    forall i | 0 <= i < |list'| ensures list'[i] in ptr' && ptr'[list'[i]] == Next(list', i) {
      if i < k - 1 {
        assert list'[i] == list[i] < list[k - 1] && Next(list', i) == Next(list, i);
      } else if i == k - 1 {
        assert list'[i] == list[k - 1] && Next(list', i) == Next(list, k);
      } else {
        assert list'[i] == list[i + 1] > list[k - 1] && Next(list', i) == Next(list, i + 1);
      }
    }
  }

  // ----- coalescing around a freed block

  /* Only bp may touch other free blocks. */
  ghost predicate CoalescedBut(bs: set<int>, size: map<int, int>, bp: int)
    requires Sized(bs, size)
  {
    forall b, c :: b in bs && c in bs && b + size[b] == c ==> b == bp || c == bp
  }

  ghost predicate EndsFree(bs: set<int>, size: map<int, int>, bp: int)
    requires Sized(bs, size) && bp in bs
  {
    forall c :: c in bs ==> bp + size[bp] != c
  }

  /* The blocks while bp is being put back. */
  ghost predicate Loose(free: set<int>, live: set<int>, size: map<int, int>, arena: set<int>, bp: int) {
    && free !! live && bp in free
    && Sized(free + live, size) && Apart(free + live, size) && CoalescedBut(free, size, bp)
    && Fills(free + live, size, arena)
  }

  lemma MergeUp(free: set<int>, live: set<int>, size: map<int, int>, arena: set<int>, bp: int, next: int)
    requires Loose(free, live, size, arena, bp) && next in free && bp + size[bp] == next
    ensures var free', size' := free - {next}, size[bp := size[bp] + size[next]];
            Loose(free', live, size', arena, bp) && EndsFree(free', size', bp)
  {
    Merge(free + live, size, bp, next);
    assert (free + live) - {next} == (free - {next}) + live;
  }

  lemma MergeDown(free: set<int>, live: set<int>, size: map<int, int>, arena: set<int>, bp: int, p: int)
    requires Loose(free, live, size, arena, bp) && EndsFree(free, size, bp) && p in free && p + size[p] == bp
    ensures var free', size' := free - {bp}, size[p := size[p] + size[bp]];
            && free' !! live
            && Sized(free' + live, size') && Apart(free' + live, size') && Coalesced(free', size')
            && Fills(free' + live, size', arena)
  {
    Merge(free + live, size, p, bp);
    assert (free + live) - {bp} == (free - {bp}) + live;
  }

  class Allocator {
    const base: int
    var freep: int
    var ptr: map<int, int>
    var size: map<int, int>
    ghost var list: seq<int>
    ghost var live: set<int>
    ghost var arena: set<int>

    /* freep is null until the first malloc. */
    ghost predicate Valid()
      reads this
    {
      && 0 < base
      && (freep == 0 ==> list == [] && live == {} && arena == {})
      && (freep != 0 ==>
            && Ring(list, ptr, size)
            && freep in list
            && Blocks(Tail(list), live, size, arena))
    }

    ghost predicate Ring(list: seq<int>, ptr: map<int, int>, size: map<int, int>) {
      && |list| > 0 && list[0] == base && base in size && size[base] == 0
      && Sorted(list) && Linked(list, ptr)
    }

    /* Free and live blocks together partition the arena, and the free ones are merged. */
    ghost predicate Blocks(free: set<int>, live: set<int>, size: map<int, int>, arena: set<int>) {
      && free !! live
      && Sized(free + live, size) && Apart(free + live, size) && Coalesced(free, size)
      && Fills(free + live, size, arena)
      && (forall b :: b in live ==> base < b)
    }

    constructor (base: int)
      requires 0 < base
      ensures Valid() && this.base == base && freep == 0
    {
      this.base := base;
      freep, ptr, size := 0, map[], map[];
      list, live, arena := [], {}, {};
    }

    /* Where a live block belongs on the list. */
    lemma LiveGap(bp: int) returns (t: nat)
      requires Valid() && freep != 0 && bp in live
      ensures Gap(list, t, bp)
    {
      assert forall i :: 0 < i < |list| ==> list[i] in Tail(list);
      t := GapExists(list, bp);
    }

    /* The search loop of free: the list element after which bp belongs. */
    method FindGap(bp: int, ghost t: nat) returns (p: int)
      requires Valid() && freep != 0 && base < bp && Gap(list, t, bp)
      ensures p == list[t]
    {
      p := freep;
      ghost var i: nat :| i < |list| && list[i] == freep;
      while !(bp > p && bp < ptr[p])
        invariant i < |list| && list[i] == p
        decreases if i <= t then t - i else t - i + |list|
      {
        StopsOnlyAtGap(list, t, bp, i);
        assert ptr[p] == Next(list, i);
        if p >= ptr[p] && (bp > p || bp < ptr[p]) {
          break;
        }
        p := ptr[p];
        i := if i + 1 < |list| then i + 1 else 0;
      }
      StopsOnlyAtGap(list, t, bp, i);
    }

    /* The list with bp back on it and merged with its upper neighbour, lower one pending. */
    ghost predicate Mid(list: seq<int>, ptr: map<int, int>, size: map<int, int>, live: set<int>, arena: set<int>,
                        t: nat, bp: int)
    {
      && Ring(list, ptr, size)
      && t + 1 < |list| && list[t + 1] == bp
      && Loose(Tail(list), live, size, arena, bp) && EndsFree(Tail(list), size, bp)
    }

    lemma Reinsert(t: nat, bp: int)
      requires Valid() && freep != 0 && bp in live && Gap(list, t, bp)
      ensures var list', ptr' := Inserted(list, t, bp), ptr[bp := Next(list, t)][list[t] := bp];
              && Ring(list', ptr', size) && list'[t + 1] == bp
              && Tail(list') == Tail(list) + {bp}
              && Loose(Tail(list'), live - {bp}, size, arena, bp)
    {
      InsertSorted(list, t, bp);
      forall i | 0 <= i < |list| ensures list[i] != bp {
        assert i > 0 ==> list[i] in Tail(list);
      }
      InsertLink(list, ptr, t, bp);
      assert (Tail(list) + {bp}) + (live - {bp}) == Tail(list) + live;
    }

    /* Nothing but the next list element can start where bp ends. */
    lemma UpperNeighbour(list: seq<int>, size: map<int, int>, live: set<int>, t: nat, bp: int)
      requires |list| > 0 && Sorted(list) && t + 1 < |list| && list[t + 1] == bp
      requires Sized(Tail(list) + live, size) && Apart(Tail(list) + live, size)
      ensures bp in Tail(list)
      ensures EndsFree(Tail(list), size, bp) <==> (t + 2 < |list| ==> bp + size[bp] != list[t + 2])
    {
      assert bp in Tail(list);
      if t + 2 < |list| && bp + size[bp] == list[t + 2] {
        assert list[t + 2] in Tail(list);
      }
      if !EndsFree(Tail(list), size, bp) {
        var c :| c in Tail(list) && bp + size[bp] == c;
        var k :| 1 <= k < |list| && list[k] == c;
        assert k > t + 1;
        var next := list[t + 2];
        assert next in Tail(list);
        assert bp + size[bp] <= next;
        assert k == t + 2;
      }
    }

    /* free, first half: bp takes its place above list[t] without touching the next block. */
    lemma UpperApart(t: nat, bp: int)
      requires Valid() && freep != 0 && bp in live && Gap(list, t, bp) && bp + size[bp] != Next(list, t)
      ensures Mid(Inserted(list, t, bp), ptr[bp := Next(list, t)][list[t] := bp], size, live - {bp}, arena, t, bp)
    {
      Reinsert(t, bp);
      UpperNeighbour(Inserted(list, t, bp), size, live - {bp}, t, bp);
    }

    /* free, first half: bp takes its place and absorbs the next block, which it touches. */
    lemma UpperMerged(t: nat, bp: int)
      requires Valid() && freep != 0 && bp in live && Gap(list, t, bp) && bp + size[bp] == Next(list, t)
      ensures t + 1 < |list| && list[t + 1] in size && list[t + 1] in ptr
      ensures var next := list[t + 1];
              Mid(Removed(Inserted(list, t, bp), t + 2), ptr[bp := ptr[next]][list[t] := bp],
                  size[bp := size[bp] + size[next]], live - {bp}, arena, t, bp)
    {
      hide Linked;
      hide Sorted;
      hide Apart;
      hide Fills;
      hide Coalesced;
      hide CoalescedBut;
      hide Tail;
      ListNode();
      assert t + 1 < |list|;
      var next := list[t + 1];
      var list1, ptr1 := Inserted(list, t, bp), ptr[bp := next][list[t] := bp];
      assert ptr1[bp := ptr1[next]] == ptr[bp := ptr[next]][list[t] := bp];
      InsertedAt(list, t, bp);
      Reinsert(t, bp);
      hide Inserted;
      AbsorbNext(list1, ptr1, live - {bp}, arena, t, bp);
    }

    lemma InsertedAt(list: seq<int>, t: nat, bp: int)
      requires t + 1 < |list|
      ensures var list1 := Inserted(list, t, bp);
              |list1| == |list| + 1 && list1[t] == list[t] && list1[t + 1] == bp && list1[t + 2] == list[t + 1]
              && list1[t + 2] in Tail(list1)
    {
    }

    lemma AbsorbNext(list: seq<int>, ptr: map<int, int>, live: set<int>, arena: set<int>, t: nat, bp: int)
      requires Ring(list, ptr, size) && t + 2 < |list| && list[t + 1] == bp && list[t + 2] in ptr
      requires Loose(Tail(list), live, size, arena, bp) && base != bp
      requires list[t + 2] in size && bp + size[bp] == list[t + 2] && list[t + 2] in Tail(list)
      ensures Mid(Removed(list, t + 2), ptr[bp := ptr[list[t + 2]]], size[bp := size[bp] + size[list[t + 2]]],
                  live, arena, t, bp)
    {
      hide Linked;
      hide Sorted;
      hide Apart;
      hide Fills;
      hide CoalescedBut;
      hide Tail;
      MergeUp(Tail(list), live, size, arena, bp, list[t + 2]);
      RemoveSorted(list, t + 2);
      RemoveLink(list, ptr, t + 2);
    }

    /* free, second half, when the block below does not touch bp. */
    lemma LowerApart(list: seq<int>, ptr: map<int, int>, size: map<int, int>, live: set<int>, arena: set<int>,
                     t: nat, bp: int)
      requires Mid(list, ptr, size, live, arena, t, bp) && list[t] in size && list[t] + size[list[t]] != bp
      requires forall b :: b in live ==> base < b
      ensures Ring(list, ptr, size) && Blocks(Tail(list), live, size, arena)
    {
      forall b, c | b in Tail(list) && c in Tail(list) ensures b + size[b] != c {
        if b + size[b] == c && c == bp {
          LowerNeighbour(list, size, live, t, b);
        }
      }
    }

    lemma LowerNeighbour(list: seq<int>, size: map<int, int>, live: set<int>, t: nat, b: int)
      requires |list| > 0 && Sorted(list) && t + 1 < |list| && b in Tail(list)
      requires Sized(Tail(list) + live, size) && Apart(Tail(list) + live, size) && b + size[b] == list[t + 1]
      ensures b == list[t]
    {
      var k :| 1 <= k < |list| && list[k] == b;
      assert k <= t;
      assert list[t] in Tail(list);
    }

    /* free, second half, when the block below ends where bp begins. */
    lemma LowerMerged(list: seq<int>, ptr: map<int, int>, size: map<int, int>, live: set<int>, arena: set<int>,
                      t: nat, bp: int)
      requires Mid(list, ptr, size, live, arena, t, bp) && list[t] in size && list[t] + size[list[t]] == bp
      requires bp in ptr && bp in size && forall b :: b in live ==> base < b
      ensures var p := list[t];
              var list', ptr', size' := Removed(list, t + 1), ptr[p := ptr[bp]], size[p := size[p] + size[bp]];
              Ring(list', ptr', size') && Blocks(Tail(list'), live, size', arena)
    {
      hide Linked;
      hide Sorted;
      hide Apart;
      hide Fills;
      hide Coalesced;
      hide CoalescedBut;
      hide Tail;
      NotAnchor(list, ptr, size, t, bp);
      MergeDown(Tail(list), live, size, arena, bp, list[t]);
      RemoveSorted(list, t + 1);
      RemoveLink(list, ptr, t + 1);
    }

    /* base has size 0, so a block that ends at a list element is not base. */
    lemma NotAnchor(list: seq<int>, ptr: map<int, int>, size: map<int, int>, t: nat, bp: int)
      requires Ring(list, ptr, size) && t + 1 < |list| && list[t + 1] == bp
      requires list[t] in size && list[t] + size[list[t]] == bp
      ensures t > 0 && list[t] in Tail(list) && list[t] != base
    {
      assert list[t] < list[t + 1];
    }

    /* The free units are the arena without the live blocks. */
    lemma FreeIsRest(free: set<int>, live: set<int>, size: map<int, int>, arena: set<int>, u: int)
      requires Blocks(free, live, size, arena)
      ensures Has(free, size, u) <==> u in arena && !Has(live, size, u)
    {
      assert Has(free, size, u) ==> Has(free + live, size, u);
      assert Has(live, size, u) ==> Has(free + live, size, u);
    }

    lemma FreedUnits(free: set<int>, live: set<int>, size: map<int, int>, arena: set<int>,
                     free': set<int>, size': map<int, int>, bp: int)
      requires Blocks(free, live, size, arena) && Blocks(free', live - {bp}, size', arena) && bp in live
      requires forall b :: b in live - {bp} ==> size'[b] == size[b]
      ensures forall u :: Has(free', size', u) <==> Has(free, size, u) || Within(bp, size, u)
      ensures exists b :: b in free' && b <= bp && bp + size[bp] <= b + size'[b]
    {
      forall u ensures Has(free', size', u) <==> Has(free, size, u) || Within(bp, size, u) {
        FreeIsRest(free, live, size, arena, u);
        FreeIsRest(free', live - {bp}, size', arena, u);
        LiveWithout(free, live, size, size', arena, bp, u);
      }
      assert Within(bp, size, bp);
      assert Has(free', size', bp);
      var b :| b in free' && Within(b, size', bp);
      assert b in free' + (live - {bp});
      assert Apart(free', size');
      FreeBounds(free', size', b);
      assert !Has(free', size', b + size'[b]);
      assert !Within(bp, size, b + size'[b]);
    }

    lemma LiveWithout(free: set<int>, live: set<int>, size: map<int, int>, size': map<int, int>, arena: set<int>,
                      bp: int, u: int)
      requires Blocks(free, live, size, arena) && bp in live
      requires forall b :: b in live - {bp} ==> b in size' && size'[b] == size[b]
      ensures Has(live - {bp}, size', u) <==> Has(live, size, u) && !Within(bp, size, u)
      ensures Within(bp, size, u) ==> u in arena
    {
      if Has(live - {bp}, size', u) {
        var b :| b in live - {bp} && Within(b, size', u);
        assert Within(b, size, u);
        assert b in free + live && bp in free + live;
      }
      if Has(live, size, u) && !Within(bp, size, u) {
        var b :| b in live && Within(b, size, u);
        assert Within(b, size', u);
      }
      if Within(bp, size, u) {
        assert bp in free + live;
        assert Has(free + live, size, u);
      }
    }

    method Free(ap: int)
      requires Valid() && freep != 0 && ap - 1 in live
      modifies this
      ensures Valid() && freep != 0
      ensures live == old(live) - {ap - 1} && arena == old(arena)
      ensures forall b :: b in live ==> size[b] == old(size)[b]
      ensures forall u :: Has(Tail(list), size, u) <==>
                Has(old(Tail(list)), old(size), u) || Within(ap - 1, old(size), u)
      ensures exists b :: b in Tail(list) && b <= ap - 1 && ap - 1 + old(size)[ap - 1] <= b + size[b]
    {
      var bp := ap - 1;
      ghost var t := LiveGap(bp);
      var p := FindGap(bp, t);
      ghost var free0, live0, size0 := Tail(list), live, size;
      assert ptr[p] == Next(list, t);
      assert p in size && p !in live && p != bp by {
        assert t > 0 ==> p in Tail(list);
      }
      UpperHalf(t, bp, p);
      LowerHalf(t, bp, p);
      hide Ring;
      hide Apart;
      hide Fills;
      hide Coalesced;
      FreedUnits(free0, live0, size0, arena, Tail(list), size, bp);
    }

    method UpperHalf(ghost t: nat, bp: int, p: int)
      requires Valid() && freep != 0 && bp in live && Gap(list, t, bp) && p == list[t] && p != bp && p !in live
      requires p in size && p in ptr && ptr[p] == Next(list, t)
      modifies this`size, this`ptr, this`list, this`live
      ensures Mid(list, ptr[p := bp], size, live, arena, t, bp) && list[t] == p
      ensures live == old(live) - {bp} && p in size && bp in size && bp in ptr
      ensures forall b :: b in live ==> b in old(size) && b in size && size[b] == old(size)[b]
    {
      if bp + size[bp] == ptr[p] {
        UpperMerged(t, bp);
        ghost var list' := Removed(Inserted(list, t, bp), t + 2);
        size := size[bp := size[bp] + size[ptr[p]]];
        ptr := ptr[bp := ptr[ptr[p]]];
        list := list';
      } else {
        UpperApart(t, bp);
        ghost var list' := Inserted(list, t, bp);
        ptr := ptr[bp := ptr[p]];
        list := list';
      }
      live := live - {bp};
    }

    method LowerHalf(ghost t: nat, bp: int, p: int)
      requires Mid(list, ptr[p := bp], size, live, arena, t, bp) && list[t] == p
      requires p in size && p != bp && bp in ptr && bp in size && p !in live && 0 < base
      requires forall b :: b in live ==> base < b
      modifies this`size, this`ptr, this`freep, this`list
      ensures Valid() && freep == p
      ensures forall b :: b in live ==> b in old(size) && size[b] == old(size)[b]
    {
      hide Apart;
      hide Fills;
      hide Coalesced;
      if p + size[p] == bp {
        LowerMerged(list, ptr[p := bp], size, live, arena, t, bp);
        assert Removed(list, t + 1)[t] == p;
        assert ptr[p := bp][p := ptr[p := bp][bp]] == ptr[p := ptr[bp]];
        list := Removed(list, t + 1);
        size := size[p := size[p] + size[bp]];
        ptr := ptr[p := ptr[bp]];
      } else {
        LowerApart(list, ptr[p := bp], size, live, arena, t, bp);
        ptr := ptr[p := bp];
      }
      freep := p;
    }

    /* The program break lies above everything the allocator has been given. */
    ghost predicate Above(brk: int)
      reads this
    {
      base < brk && forall u :: u in arena ==> u < brk
    }

    /* No block reaches up to brk. */
    lemma BelowBreak(brk: int)
      requires Valid() && freep != 0 && Above(brk)
      ensures forall b :: b in Tail(list) + live ==> b in size && b < b + size[b] <= brk
    {
      hide Ring;
      var bs := Tail(list) + live;
      forall b | b in bs ensures b + size[b] <= brk {
        assert Within(b, size, b + size[b] - 1);
        assert Has(bs, size, b + size[b] - 1);
      }
    }

    /* A block at brk adds its units. */
    lemma UnitsAbove(bs: set<int>, brk: int, nu: nat)
      requires nu >= 1 && (forall b :: b in bs ==> b in size && b < b + size[b] <= brk)
      requires forall u :: u in arena <==> Has(bs, size, u)
      ensures forall u :: u in arena + Range(brk, nu) <==> Has(bs + {brk}, size[brk := nu], u)
    {
      var size' := size[brk := nu];
      forall u ensures u in arena + Range(brk, nu) <==> Has(bs + {brk}, size', u) {
        if u in arena {
          var b :| b in bs && Within(b, size, u);
          assert Within(b, size', u);
        } else if u in Range(brk, nu) {
          assert Within(brk, size', u);
        }
        if Has(bs + {brk}, size', u) {
          var b :| b in bs + {brk} && Within(b, size', u);
          assert b == brk || Within(b, size, u);
        }
      }
    }

    lemma GrowBlocks(brk: int, nu: nat)
      requires Valid() && freep != 0 && Above(brk) && nu >= 1
      ensures brk !in live
      ensures Blocks(Tail(list), live + {brk}, size[brk := nu], arena + Range(brk, nu))
      ensures Ring(list, ptr, size[brk := nu])
    {
      hide Has;
      BelowBreak(brk);
      UnitsAbove(Tail(list) + live, brk, nu);
      assert Tail(list) + live + {brk} == Tail(list) + (live + {brk});
    }

    /* morecore; `avail` tells whether sbrk succeeds, at address `brk`. */
    method Morecore(nunits: nat, brk: int, avail: bool) returns (r: int)
      requires Valid() && freep != 0 && Above(brk) && nunits >= 1
      modifies this
      ensures Valid() && freep != 0 && live == old(live)
      ensures SameSizes(live, old(size), size)
      ensures r == (if avail then freep else 0)
      ensures !avail ==> arena == old(arena) && size == old(size) && list == old(list) && freep == old(freep)
      ensures avail ==> arena == Grown(old(arena), brk, nunits) && Fits(Tail(list), size, nunits)
      ensures avail ==> arena == old(arena) + Range(brk, if nunits < 4096 then 4096 else nunits)
    {
      var nu := nunits;
      if nu < MINCORE {
        nu := MINCORE;
      }
      if !avail {
        return 0;
      }
      GrowBlocks(brk, nu);
      size := size[brk := nu];
      live := live + {brk};
      arena := arena + Range(brk, nu);
      Free(brk + 1);
      return freep;
    }

    /* The order in which malloc's loop looks at list[k]: the element after freep first,
       freep itself, list[f], last. */
    function Turn(list: seq<int>, f: nat, k: nat): int
      requires f < |list|
    {
      if k > f then k - f - 1 else k - f - 1 + |list|
    }

    ghost predicate TooSmall(list: seq<int>, size: map<int, int>, f: nat, turn: int, nunits: nat)
      requires f < |list|
    {
      forall k :: 0 <= k < |list| && Turn(list, f, k) < turn ==> list[k] in size && size[list[k]] < nunits
    }

    /* Take the whole block p off the list. */
    method TakeWhole(prevp: int, p: int, ghost j: nat)
      requires Valid() && freep != 0 && j + 1 < |list| && list[j] == prevp && list[j + 1] == p && p in ptr
      modifies this`ptr, this`freep, this`list, this`live
      ensures Valid() && freep == prevp && live == old(live) + {p} && p !in old(live)
    {
      assert p in Tail(list);
      RemoveSorted(list, j + 1);
      RemoveLink(list, ptr, j + 1);
      ptr := ptr[prevp := ptr[p]];
      ghost var list' := Removed(list, j + 1);
      assert list'[j] == prevp;
      assert (Tail(list) - {p}) + (live + {p}) == Tail(list) + live;
      list := list';
      live := live + {p};
      freep := prevp;
    }

    lemma SplitBlocks(free: set<int>, live: set<int>, size: map<int, int>, arena: set<int>, p: int, n: nat)
      requires Blocks(free, live, size, arena) && p in free && 1 <= n < size[p] && base < p
      ensures var t := p + size[p] - n;
              && t !in free + live && p !in live
              && Blocks(free, live + {t}, size[p := size[p] - n][t := n], arena)
    {
      var t := p + size[p] - n;
      assert p in free + live;
      Split(free + live, size, p, n);
      assert (free + live) + {t} == free + (live + {t});
      hide Apart;
    }

    lemma TailCut(p: int, n: nat)
      requires Valid() && freep != 0 && p in Tail(list) && 1 <= n < size[p] && base < p
      ensures var t := p + size[p] - n;
              var size' := size[p := size[p] - n][t := n];
              && t !in live && Ring(list, ptr, size') && Blocks(Tail(list), live + {t}, size', arena)
              && forall b :: b in live ==> size'[b] == size[b]
    {
      hide Blocks;
      hide Linked;
      hide Tail;
      hide Sorted;
      ListNode();
      SplitBlocks(Tail(list), live, size, arena, p, n);
    }

    /* Cut the last n units off the free block p. */
    method TakeTail(prevp: int, p: int, n: nat) returns (q: int)
      requires Valid() && freep != 0 && prevp in list && p in Tail(list) && 1 <= n < size[p]
      modifies this`size, this`freep, this`live
      ensures Valid() && freep == prevp && live == old(live) + {q} && q !in old(live) && size[q] == n
      ensures forall b :: b in old(live) ==> size[b] == old(size)[b]
    {
      hide Ring;
      hide Blocks;
      hide Tail;
      ListNode();
      TailCut(p, n);
      size := size[p := size[p] - n];
      q := p + size[p];
      size := size[q := n];
      live := live + {q};
      freep := prevp;
    }

    ghost function FreeBlocks(): set<int>
      reads this
    {
      if list == [] then {} else Tail(list)
    }

    /* After a full turn every block has been seen. */
    lemma FullTurn(f: nat, nunits: nat)
      requires Valid() && freep != 0 && f < |list| && list[f] == freep && size[freep] < nunits
      requires TooSmall(list, size, f, Turn(list, f, f), nunits)
      ensures !Fits(Tail(list), size, nunits)
    {
      forall b | b in Tail(list) ensures size[b] < nunits {
        var k :| 1 <= k < |list| && list[k] == b;
        assert k != f ==> Turn(list, f, k) < Turn(list, f, f);
      }
    }

    /* The first call of malloc makes `base` a list of its own. */
    method Init()
      requires Valid() && freep == 0
      modifies this`ptr, this`size, this`freep, this`list
      ensures Valid() && freep == base && list == [base]
    {
      ptr := ptr[base := base];
      size := size[base := 0];
      freep := base;
      list := [base];
    }

    /* What every list element looks like. */
    lemma ListNode()
      requires Valid() && freep != 0
      ensures freep in list && 0 < |list|
      ensures forall i :: 0 <= i < |list| ==> list[i] in size && list[i] in ptr && 0 < list[i]
      ensures forall i {:trigger Next(list, i)} :: 0 <= i < |list| ==> ptr[list[i]] == Next(list, i)
      ensures forall i :: 0 <= i < |list| && size[list[i]] > 0 ==> i > 0 && list[i] in Tail(list)
      ensures forall b :: b in Tail(list) || b in live ==> b in size && base < b
      ensures forall b :: b in live ==> b !in Tail(list)
    {
      forall i | 0 <= i < |list| ensures list[i] in size && 0 < list[i] {
        assert i > 0 ==> list[i] in Tail(list);
      }
    }

    /* malloc has found a block p after prevp that is large enough. */
    method Take(prevp: int, p: int, nunits: nat, ghost j: nat) returns (q: int)
      requires Valid() && freep != 0 && j < |list| && list[j] == prevp && p == Next(list, j)
      requires nunits >= 1 && p in size && size[p] >= nunits
      modifies this
      ensures Valid() && freep != 0 && arena == old(arena)
      ensures live == old(live) + {q} && q !in old(live) && 0 < q && q in size && size[q] == nunits
      ensures p in old(Tail(list)) && SameSizes(old(live), old(size), size)
    {
      ListNode();
      assert p == list[After(list, j)];
      assert After(list, j) == j + 1;
      if size[p] == nunits {
        TakeWhole(prevp, p, j);
        q := p;
      } else {
        q := TakeTail(prevp, p, nunits);
      }
      assert q in live;
      ListNode();
    }

    /* The blocks bs have the same sizes in both memories. */
    ghost predicate SameSizes(bs: set<int>, size0: map<int, int>, size1: map<int, int>) {
      forall b :: b in bs ==> b in size0 && b in size1 && size1[b] == size0[b]
    }

    ghost predicate Fits(bs: set<int>, size: map<int, int>, nunits: nat) {
      exists b :: b in bs && b in size && size[b] >= nunits
    }

    /* The heap after morecore has got memory at brk for a request of nunits. */
    ghost function Grown(arena0: set<int>, brk: int, nunits: nat): set<int> {
      arena0 + Range(brk, if nunits < MINCORE then MINCORE else nunits)
    }

    /* One turn of malloc's loop round the list, from the element after freep up to freep:
       a block p that is large enough and its predecessor, or none. */
    method Scan(nunits: nat) returns (prevp: int, p: int, ghost j: nat, found: bool)
      requires Valid() && freep != 0
      ensures j < |list| && list[j] == prevp && p == Next(list, j) && p in size
      ensures found ==> size[p] >= nunits
      ensures !found ==> !Fits(Tail(list), size, nunits)
    {
      ListNode();
      ghost var f: nat :| f < |list| && list[f] == freep;
      prevp, j := freep, f;
      p := ptr[prevp];
      assert p == Next(list, f);
      TurnStart(f, nunits);
      while size[p] < nunits && p != freep
        invariant j < |list| && list[j] == prevp && p == Next(list, j) && p in size
        invariant 0 <= Turn(list, f, After(list, j)) < |list|
        invariant TooSmall(list, size, f, Turn(list, f, After(list, j)), nunits)
        decreases |list| - Turn(list, f, After(list, j))
      {
        TurnStep(f, After(list, j), nunits);
        prevp, j := p, After(list, j);
        p := ptr[p];
        assert p == Next(list, j);
      }
      found := size[p] >= nunits;
      if !found {
        Injective(After(list, j), f);
        FullTurn(f, nunits);
      }
    }

    /* malloc; `brk` is where sbrk would place new memory and `avail` whether it can.  The
       number of bytes asked of sbrk is a signed number; it is not negative for requests
       below 2^31 - 15, nor for those whose sum has wrapped, which get a block too small. */
    method Malloc(nbytes: nat, brk: int, avail: bool) returns (ap: int)
      requires Valid() && Above(brk) && nbytes < 0x1_0000_0000
      requires nbytes + 2 * HEADER <= 0x8000_0000 || nbytes > 0xFFFF_FFF8
      modifies this
      ensures Valid() && freep != 0
      ensures ap == 0 <==> !avail && !Fits(old(FreeBlocks()), old(size), UnitsFor(nbytes))
      ensures ap == 0 ==> live == old(live)
      ensures ap != 0 ==> live == old(live) + {ap - 1} && ap - 1 !in old(live)
      ensures ap != 0 ==> ap - 1 in size && size[ap - 1] == UnitsFor(nbytes)
      ensures ap != 0 ==> ((size[ap - 1] - 1) * HEADER >= nbytes <==> nbytes <= 0xFFFF_FFF8)
      ensures ap != 0 ==> (size[ap - 1] - 2) * HEADER < nbytes
      ensures SameSizes(old(live), old(size), size)
      ensures var nunits := UnitsFor(nbytes);
              var fits := Fits(old(FreeBlocks()), old(size), nunits);
              arena == if fits || !avail then old(arena) else Grown(old(arena), brk, nunits)
    {
      var nunits := (nbytes + HEADER - 1) % 0x1_0000_0000 / HEADER + 1;
      UnitsHoldRequest(nbytes);
      if freep == 0 {
        Init();
      }
      assert Tail(list) == old(FreeBlocks()) && SameSizes(Tail(list), old(size), size)
             && SameSizes(live, old(size), size);
      ap := MallocUnits(nunits, brk, avail);
    }

    /* malloc once the list exists. */
    method MallocUnits(nunits: nat, brk: int, avail: bool) returns (ap: int)
      requires Valid() && freep != 0 && Above(brk) && nunits >= 1
      modifies this
      ensures Valid() && freep != 0
      ensures ap == 0 <==> !avail && !Fits(old(Tail(list)), old(size), nunits)
      ensures ap == 0 ==> live == old(live)
      ensures ap != 0 ==> live == old(live) + {ap - 1} && ap - 1 !in old(live)
      ensures ap != 0 ==> ap - 1 in size && size[ap - 1] == nunits
      ensures SameSizes(old(live), old(size), size)
      ensures var fits := Fits(old(Tail(list)), old(size), nunits);
              arena == if fits || !avail then old(arena) else Grown(old(arena), brk, nunits)
    {
      hide Ring;
      hide Blocks;
      hide Tail;
      hide Grown;
      ListNode();
      var prevp, p, j, found := Scan(nunits);
      if !found {
        p := Morecore(nunits, brk, avail);
        if p == 0 {
          return 0;
        }
        prevp, p, j, found := Scan(nunits);
      }
      p := Take(prevp, p, nunits, j);
      return p + 1;
    }

    lemma TurnStart(f: nat, nunits: nat)
      requires f < |list|
      ensures Turn(list, f, After(list, f)) == 0 && TooSmall(list, size, f, Turn(list, f, After(list, f)), nunits)
    {
    }

    lemma TurnStep(f: nat, i: nat, nunits: nat)
      requires f < |list| && i < |list| && i != f && list[i] in size && size[list[i]] < nunits
      requires TooSmall(list, size, f, Turn(list, f, i), nunits)
      ensures Turn(list, f, i) < Turn(list, f, After(list, i)) < |list|
      ensures TooSmall(list, size, f, Turn(list, f, After(list, i)), nunits)
    {
    }

    lemma Injective(i: nat, f: nat)
      requires Valid() && freep != 0 && i < |list| && f < |list| && list[i] == list[f]
      ensures i == f
    {
    }

    ghost function After(list: seq<int>, j: nat): (i: nat)
      requires j < |list|
      ensures i < |list| && list[i] == Next(list, j)
    {
      if j + 1 < |list| then j + 1 else 0
    }
  }
}
