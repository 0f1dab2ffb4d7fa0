/**
The buffer cache (bio.c): a fixed set of buffers on a circular doubly linked list in
order of last release.  In any sequence of reads, logged writes, disk writes and releases
a read returns the last contents written to its block, a block is in the cache at most
once, and the buffer recycled is the least recently released one that may be.
*/
module BufferCache {
  import WriteAheadLog

  type Block = WriteAheadLog.Block

  function ZeroBlock(): Block {
    seq(WriteAheadLog.WORDS, i => 0)
  }

  // ----- the list

  /* The element at position i of the circle, the head at both ends. */
  function Cur(list: seq<nat>, head: nat, i: int): nat {
    if 0 <= i < |list| then list[i] else head
  }

  /* The one after it. */
  function Succ(list: seq<nat>, head: nat, i: int): nat {
    if 0 <= i + 1 < |list| then list[i + 1] else head
  }

  /* next and prev link the elements of list and the head into a circle. */
  ghost predicate Linked(next: seq<nat>, prev: seq<nat>, head: nat, list: seq<nat>) {
    && |next| == |prev| && head < |next|
    && (forall i :: 0 <= i < |list| ==> list[i] < |next| && list[i] != head)
    && (forall i, j :: 0 <= i < j < |list| ==> list[i] != list[j])
    && (forall i {:trigger Succ(list, head, i)} :: -1 <= i < |list| ==>
          next[Cur(list, head, i)] == Succ(list, head, i) && prev[Succ(list, head, i)] == Cur(list, head, i))
  }

  function Without(list: seq<nat>, p: nat): seq<nat>
    requires p < |list|
  {
    list[..p] + list[p + 1..]
  }

  /* Taking a buffer out of the circular list by joining its two neighbours. */
  lemma Unlink(next: seq<nat>, prev: seq<nat>, head: nat, list: seq<nat>, p: nat)
    requires Linked(next, prev, head, list) && p < |list|
    ensures var b := list[p];
            && next[b] < |prev| && prev[b] < |next|
            && Linked(next[prev[b] := next[b]], prev[next[b] := prev[b]], head, Without(list, p))
  {
    var b, list' := list[p], Without(list, p);
    assert Cur(list, head, p) == b && Succ(list, head, p - 1) == b;
    assert next[b] == Succ(list, head, p) && prev[b] == Cur(list, head, p - 1);
    var next', prev' := next[prev[b] := next[b]], prev[next[b] := prev[b]];
    forall i | -1 <= i < |list'|
      ensures next'[Cur(list', head, i)] == Succ(list', head, i) && prev'[Succ(list', head, i)] == Cur(list', head, i)
    {
      var j := if i < p then i else i + 1;
      assert Cur(list', head, i) == Cur(list, head, j);
      assert Succ(list', head, i) == if i == p - 1 then Succ(list, head, p) else Succ(list, head, j);
      assert next[Cur(list, head, j)] == Succ(list, head, j);
    }
  }

  /* Putting a buffer in as the first after the head. */
  lemma PushFront(next: seq<nat>, prev: seq<nat>, head: nat, list: seq<nat>, b: nat)
    requires Linked(next, prev, head, list) && b < |next| && b != head && b !in list
    ensures next[head] < |prev|
    ensures var f := next[head];
            Linked(next[b := f][head := b], prev[b := head][f := b], head, [b] + list)
  {
    var f, list' := next[head], [b] + list;
    assert f == Succ(list, head, -1) && Cur(list, head, -1) == head;
    var next', prev' := next[b := f][head := b], prev[b := head][f := b];
    forall i | -1 <= i < |list'|
      ensures next'[Cur(list', head, i)] == Succ(list', head, i) && prev'[Succ(list', head, i)] == Cur(list', head, i)
    {
      if i > 0 {
        assert Cur(list', head, i) == Cur(list, head, i - 1) && Succ(list', head, i) == Succ(list, head, i - 1);
      } else if i == 0 {
        assert Succ(list', head, 0) == Succ(list, head, -1);
      }
    }
  }

  // ----- buffers

  type Key = (nat, nat)

  datatype Buf = Buf(dev: nat, blockno: nat, refcnt: nat, valid: bool, dirty: bool, data: Block)

  function KeyOf(b: Buf): Key {
    (b.dev, b.blockno)
  }

  predicate Live(b: Buf) {
    b.refcnt > 0 || b.valid
  }

  /* Refcount 0 and not pinned by the log. */
  predicate Evictable(b: Buf) {
    b.refcnt == 0 && !b.dirty
  }

  /* list holds every buffer. */
  ghost predicate Whole(list: seq<nat>, n: nat) {
    |list| == n && (forall i :: 0 <= i < n ==> list[i] < n) && (forall k :: 0 <= k < n ==> k in list)
  }

  /* Of two buffers with the same key the one further back is neither referenced nor valid. */
  ghost predicate LiveFirst(bufs: seq<Buf>, list: seq<nat>)
    requires Whole(list, |bufs|)
  {
    forall p, q :: 0 <= p < q < |list| && KeyOf(bufs[list[p]]) == KeyOf(bufs[list[q]]) ==> !Live(bufs[list[q]])
  }

  ghost predicate DirtyCopy(bufs: seq<Buf>, key: Key) {
    exists i :: 0 <= i < |bufs| && bufs[i].dirty && KeyOf(bufs[i]) == key
  }

  /* truth is what was last written to each block: valid buffers hold it, and so does the
     disk unless a pinned buffer does. */
  ghost predicate Coherent(bufs: seq<Buf>, disk: map<Key, Block>, truth: map<Key, Block>) {
    && truth.Keys == disk.Keys
    && (forall i :: 0 <= i < |bufs| && bufs[i].valid ==>
          KeyOf(bufs[i]) in truth && bufs[i].data == truth[KeyOf(bufs[i])])
    && (forall i :: 0 <= i < |bufs| && bufs[i].dirty ==> bufs[i].valid)
    && (forall key :: key in disk ==> disk[key] == truth[key] || DirtyCopy(bufs, key))
  }

  /* The list is in order of last release, latest first. */
  ghost predicate ByRelease(list: seq<nat>, stamps: seq<nat>, clock: nat)
    requires Whole(list, |stamps|)
  {
    && (forall p, q :: 0 <= p < q < |list| ==> stamps[list[p]] > stamps[list[q]])
    && (forall k :: 0 <= k < |stamps| ==> stamps[k] < clock)
  }

  /* A block is in the cache at most once. */
  lemma OneBuffer(bufs: seq<Buf>, list: seq<nat>, i: nat, j: nat)
    requires Whole(list, |bufs|) && LiveFirst(bufs, list) && i < |bufs| && j < |bufs|
    requires Live(bufs[i]) && Live(bufs[j]) && KeyOf(bufs[i]) == KeyOf(bufs[j])
    ensures i == j
  {
    assert i in list && j in list;
    var p :| 0 <= p < |list| && list[p] == i;
    var q :| 0 <= q < |list| && list[q] == j;
    assert p < q || p == q || q < p;
  }

  lemma HitKeeps(bufs: seq<Buf>, list: seq<nat>, p: nat)
    requires Whole(list, |bufs|) && LiveFirst(bufs, list) && p < |list|
    requires forall q :: 0 <= q < p ==> KeyOf(bufs[list[q]]) != KeyOf(bufs[list[p]])
    requires forall i, j :: 0 <= i < j < |list| ==> list[i] != list[j]
    ensures LiveFirst(bufs[list[p] := bufs[list[p]].(refcnt := bufs[list[p]].refcnt + 1)], list)
  {
  }

  lemma RecycleKeeps(bufs: seq<Buf>, list: seq<nat>, p: nat, x: Buf)
    requires Whole(list, |bufs|) && LiveFirst(bufs, list) && p < |list|
    requires forall q :: 0 <= q < |list| ==> KeyOf(bufs[list[q]]) != KeyOf(x)
    requires forall i, j :: 0 <= i < j < |list| ==> list[i] != list[j]
    ensures LiveFirst(bufs[list[p] := x], list)
  {
  }

  /* Changing a buffer under its key, without making a dead one live, keeps the order. */
  lemma SameKeyKeeps(bufs: seq<Buf>, list: seq<nat>, k: nat, x: Buf)
    requires Whole(list, |bufs|) && LiveFirst(bufs, list) && k < |bufs| && KeyOf(x) == KeyOf(bufs[k])
             && (Live(x) ==> Live(bufs[k]))
    ensures LiveFirst(bufs[k := x], list)
  {
  }

  lemma RecycleCoherent(bufs: seq<Buf>, disk: map<Key, Block>, truth: map<Key, Block>, k: nat, x: Buf)
    requires Coherent(bufs, disk, truth) && k < |bufs| && !bufs[k].dirty && !x.valid && !x.dirty
    ensures Coherent(bufs[k := x], disk, truth)
  {
    StillDirty(bufs, k, x);
  }

  /* Why bget passes over pinned buffers: recycling one keeps reads right exactly if the disk
     has its contents already. */
  lemma RecycleExact(bufs: seq<Buf>, list: seq<nat>, disk: map<Key, Block>, truth: map<Key, Block>, k: nat, x: Buf)
    requires Coherent(bufs, disk, truth) && Whole(list, |bufs|) && LiveFirst(bufs, list)
    requires k < |bufs| && !x.valid && !x.dirty
    ensures Coherent(bufs[k := x], disk, truth) <==>
            !bufs[k].dirty || disk[KeyOf(bufs[k])] == truth[KeyOf(bufs[k])]
  {
    hide Whole;
    hide LiveFirst;
    if !bufs[k].dirty {
      RecycleCoherent(bufs, disk, truth, k, x);
    } else {
      var key, bufs' := KeyOf(bufs[k]), bufs[k := x];
      forall i | 0 <= i < |bufs| && i != k && bufs[i].dirty ensures KeyOf(bufs[i]) != key {
        if KeyOf(bufs[i]) == key { OneBuffer(bufs, list, i, k); }
      }
      assert !DirtyCopy(bufs', key);
      forall key' | key' != key && DirtyCopy(bufs, key') ensures DirtyCopy(bufs', key') {
        var i :| 0 <= i < |bufs| && bufs[i].dirty && KeyOf(bufs[i]) == key';
        assert bufs'[i].dirty && KeyOf(bufs'[i]) == key';
      }
    }
  }

  lemma StillDirty(bufs: seq<Buf>, k: nat, x: Buf)
    requires k < |bufs| && (bufs[k].dirty ==> x.dirty && KeyOf(x) == KeyOf(bufs[k]))
    ensures forall key :: DirtyCopy(bufs, key) ==> DirtyCopy(bufs[k := x], key)
  {
    forall key | DirtyCopy(bufs, key) ensures DirtyCopy(bufs[k := x], key) {
      var i :| 0 <= i < |bufs| && bufs[i].dirty && KeyOf(bufs[i]) == key;
      assert bufs[k := x][i].dirty && KeyOf(bufs[k := x][i]) == key;
    }
  }

  lemma CountCoherent(bufs: seq<Buf>, disk: map<Key, Block>, truth: map<Key, Block>, k: nat, n: nat)
    requires Coherent(bufs, disk, truth) && k < |bufs|
    ensures Coherent(bufs[k := bufs[k].(refcnt := n)], disk, truth)
  {
    StillDirty(bufs, k, bufs[k].(refcnt := n));
  }

  /* Reading a block that no buffer holds gives what was last written. */
  lemma FillCoherent(bufs: seq<Buf>, list: seq<nat>, disk: map<Key, Block>, truth: map<Key, Block>, k: nat)
    requires Whole(list, |bufs|) && LiveFirst(bufs, list) && Coherent(bufs, disk, truth) && k < |bufs|
    requires bufs[k].refcnt > 0 && !bufs[k].valid && KeyOf(bufs[k]) in disk
    ensures disk[KeyOf(bufs[k])] == truth[KeyOf(bufs[k])]
    ensures Coherent(bufs[k := bufs[k].(valid := true, data := disk[KeyOf(bufs[k])])], disk, truth)
  {
    var key := KeyOf(bufs[k]);
    if DirtyCopy(bufs, key) {
      var i :| 0 <= i < |bufs| && bufs[i].dirty && KeyOf(bufs[i]) == key;
      OneBuffer(bufs, list, i, k);
    }
    StillDirty(bufs, k, bufs[k].(valid := true, data := disk[key]));
  }

  lemma PinCoherent(bufs: seq<Buf>, list: seq<nat>, disk: map<Key, Block>, truth: map<Key, Block>, k: nat, d: Block)
    requires Whole(list, |bufs|) && LiveFirst(bufs, list) && Coherent(bufs, disk, truth) && k < |bufs|
    requires bufs[k].refcnt > 0 && bufs[k].valid
    ensures Coherent(bufs[k := bufs[k].(dirty := true, data := d)], disk, truth[KeyOf(bufs[k]) := d])
  {
    var key, x := KeyOf(bufs[k]), bufs[k].(dirty := true, data := d);
    var bufs' := bufs[k := x];
    StillDirty(bufs, k, x);
    assert bufs'[k].dirty && KeyOf(bufs'[k]) == key;
    forall i | 0 <= i < |bufs| && i != k && bufs[i].valid ensures KeyOf(bufs[i]) != key {
      if KeyOf(bufs[i]) == key { OneBuffer(bufs, list, i, k); }
    }
  }

  lemma WriteCoherent(bufs: seq<Buf>, list: seq<nat>, disk: map<Key, Block>, truth: map<Key, Block>, k: nat, d: Block)
    requires Whole(list, |bufs|) && LiveFirst(bufs, list) && Coherent(bufs, disk, truth) && k < |bufs|
    requires bufs[k].refcnt > 0 && KeyOf(bufs[k]) in disk
    ensures var key := KeyOf(bufs[k]);
            Coherent(bufs[k := bufs[k].(valid := true, dirty := false, data := d)], disk[key := d], truth[key := d])
  {
    var key, x := KeyOf(bufs[k]), bufs[k].(valid := true, dirty := false, data := d);
    var bufs' := bufs[k := x];
    forall i | 0 <= i < |bufs| && i != k && bufs[i].valid ensures KeyOf(bufs[i]) != key {
      if KeyOf(bufs[i]) == key { OneBuffer(bufs, list, i, k); }
    }
    forall y | y in disk && y != key && DirtyCopy(bufs, y) ensures DirtyCopy(bufs', y) {
      var i :| 0 <= i < |bufs| && bufs[i].dirty && KeyOf(bufs[i]) == y;
      assert bufs'[i].dirty && KeyOf(bufs'[i]) == y;
    }
  }

  // ----- releasing: to the front of the list

  lemma {:induction false} FrontWhole(list: seq<nat>, n: nat, p: nat)
    requires Whole(list, n) && p < |list|
    ensures Whole([list[p]] + Without(list, p), n)
  {
    var list' := [list[p]] + Without(list, p);
    forall k | 0 <= k < n ensures k in list' {
      assert k in list;
      var q :| 0 <= q < |list| && list[q] == k;
      assert list'[if q == p then 0 else if q < p then q + 1 else q] == k;
    }
  }

  /* Positions in the new list, seen from the old one. */
  function WasAt(p: nat, q: nat): nat {
    if q == 0 then p else if q <= p then q - 1 else q
  }

  lemma FrontPositions(list: seq<nat>, p: nat)
    requires p < |list|
    ensures var list' := [list[p]] + Without(list, p);
            forall q :: 0 <= q < |list'| ==> WasAt(p, q) < |list| && list'[q] == list[WasAt(p, q)]
  {
  }

  lemma FrontOrdered(bufs: seq<Buf>, list: seq<nat>, p: nat, stamps: seq<nat>, clock: nat)
    requires Whole(list, |bufs|) && LiveFirst(bufs, list) && p < |list| && Live(bufs[list[p]]) && |stamps| == |bufs|
    requires ByRelease(list, stamps, clock) && forall i, j :: 0 <= i < j < |list| ==> list[i] != list[j]
    ensures var list' := [list[p]] + Without(list, p);
            Whole(list', |bufs|) && LiveFirst(bufs, list') && ByRelease(list', stamps[list[p] := clock], clock + 1)
  {
    FrontWhole(list, |bufs|, p);
    FrontPositions(list, p);
    var list' := [list[p]] + Without(list, p);
    forall q, r | 0 <= q < r < |list'| && KeyOf(bufs[list'[q]]) == KeyOf(bufs[list'[r]]) ensures !Live(bufs[list'[r]]) {
      assert WasAt(p, q) != WasAt(p, r);
      if q == 0 {
        assert WasAt(p, r) < p || p < WasAt(p, r);
      }
    }
    forall q, r | 0 <= q < r < |list'|
      ensures stamps[list[p] := clock][list'[q]] > stamps[list[p] := clock][list'[r]]
    {
      assert WasAt(p, r) != p && (q > 0 ==> WasAt(p, q) != p && WasAt(p, q) < WasAt(p, r));
    }
  }

  lemma EmptyList(n: nat, next: seq<nat>, prev: seq<nat>)
    requires |next| == |prev| == n + 1 && next[n] == n && prev[n] == n
    ensures Linked(next, prev, n, [])
  {
  }

  lemma LinkedFacts(next: seq<nat>, prev: seq<nat>, head: nat, list: seq<nat>)
    requires Linked(next, prev, head, list)
    ensures |next| == |prev| && head < |next|
  {
  }

  lemma InitialList(bufs: seq<Buf>, list: seq<nat>, disk: map<Key, Block>, stamps: seq<nat>)
    requires |list| == |bufs| == |stamps| && (forall i :: 0 <= i < |list| ==> list[i] == |bufs| - 1 - i)
    requires forall k :: 0 <= k < |bufs| ==> stamps[k] == k && !Live(bufs[k]) && !bufs[k].dirty
    ensures Whole(list, |bufs|) && LiveFirst(bufs, list) && Coherent(bufs, disk, disk)
            && ByRelease(list, stamps, |bufs|)
  {
    forall k | 0 <= k < |bufs| ensures k in list {
      assert list[|bufs| - 1 - k] == k;
    }
  }

  class Bcache {
    var bufs: seq<Buf>
    var next: seq<nat>
    var prev: seq<nat>
    var disk: map<Key, Block>
    ghost var list: seq<nat>
    ghost var truth: map<Key, Block>
    ghost var stamps: seq<nat>
    ghost var clock: nat

    ghost predicate Valid()
      reads this
    {
      && |next| == |bufs| + 1 && |stamps| == |bufs| && Whole(list, |bufs|)
      && Linked(next, prev, |bufs|, list) && LiveFirst(bufs, list)
      && Coherent(bufs, disk, truth) && ByRelease(list, stamps, clock)
    }

    ghost predicate Same(b: seq<Buf>, t: map<Key, Block>, d: map<Key, Block>)
      reads this
    {
      bufs == b && truth == t && disk == d
    }

    /* binit: every buffer at the front in turn, all with the key (0, 0). */
    constructor (n: nat, disk: map<Key, Block>)
      ensures Valid() && |bufs| == n && this.disk == disk == truth
      ensures forall k :: 0 <= k < n ==> !Live(bufs[k]) && !bufs[k].dirty
    {
      hide Whole;
      hide LiveFirst;
      hide Coherent;
      hide ByRelease;
      hide Linked;
      bufs := seq(n, i => Buf(0, 0, 0, false, false, ZeroBlock()));
      this.disk, truth := disk, disk;
      next, prev := seq(n + 1, i => n), seq(n + 1, i => n);
      list, stamps, clock := [], seq(n, i => i), n;
      new;
      EmptyList(n, next, prev);
      var k := 0;
      while k < n
        invariant 0 <= k <= n == |bufs| == |stamps| && |next| == n + 1 && this.disk == disk == truth && clock == n
        invariant Linked(next, prev, n, list) && |list| == k && forall i :: 0 <= i < k ==> list[i] == k - 1 - i
        invariant stamps == seq(n, i => i) && bufs == seq(n, i => Buf(0, 0, 0, false, false, ZeroBlock()))
      {
        LinkedFacts(next, prev, n, list);
        PushFront(next, prev, n, list, k);
        var f := next[n];
        next := next[k := f];
        prev := prev[k := n];
        prev := prev[f := k];
        next := next[n := k];
        list := [k] + list;
        k := k + 1;
      }
      InitialList(bufs, list, disk, stamps);
    }

    /* bget's first loop: the buffer with this key nearest the front. */
    method FindKey(dev: nat, blockno: nat) returns (k: nat, found: bool, ghost p: nat)
      requires Valid()
      ensures found ==> p < |list| && list[p] == k && k < |bufs| && KeyOf(bufs[k]) == (dev, blockno)
      ensures found ==> forall q :: 0 <= q < p ==> KeyOf(bufs[list[q]]) != (dev, blockno)
      ensures !found ==> forall q :: 0 <= q < |list| ==> KeyOf(bufs[list[q]]) != (dev, blockno)
    {
      var head := |bufs|;
      p := 0;
      assert Succ(list, head, -1) == Cur(list, head, 0);
      k := next[head];
      while k != head
        invariant 0 <= p <= |list| && k == Cur(list, head, p)
        invariant forall q :: 0 <= q < p ==> KeyOf(bufs[list[q]]) != (dev, blockno)
        decreases |list| - p
      {
        if bufs[k].dev == dev && bufs[k].blockno == blockno {
          return k, true, p;
        }
        assert Succ(list, head, p) == Cur(list, head, p + 1);
        k := next[k];
        p := p + 1;
      }
      return 0, false, 0;
    }

    /* bget's second loop: the least recently released buffer that may be recycled. */
    method FindVictim() returns (k: nat, found: bool, ghost p: nat)
      requires Valid()
      ensures found ==> p < |list| && list[p] == k && k < |bufs| && Evictable(bufs[k])
      ensures found ==> forall q :: p < q < |list| ==> !Evictable(bufs[list[q]])
      ensures !found ==> forall q :: 0 <= q < |list| ==> !Evictable(bufs[list[q]])
    {
      var head := |bufs|;
      ghost var i := |list| - 1;
      assert Succ(list, head, |list| - 1) == head;
      k := prev[head];
      while k != head
        invariant -1 <= i < |list| && k == Cur(list, head, i)
        invariant forall q :: i < q < |list| ==> !Evictable(bufs[list[q]])
        decreases i
      {
        if bufs[k].refcnt == 0 && !bufs[k].dirty {
          return k, true, i;
        }
        assert Succ(list, head, i - 1) == k;
        k := prev[k];
        i := i - 1;
      }
      return 0, false, 0;
    }

    /* bget, up to the acquisition of the buffer's lock; ok is false where it panics. */
    method Bget(dev: nat, blockno: nat) returns (k: nat, ok: bool)
      requires Valid()
      modifies this`bufs
      ensures Valid() && |bufs| == |old(bufs)|
      ensures !ok ==>
                bufs == old(bufs) && forall j :: 0 <= j < |bufs| ==>
                  (bufs[j].refcnt > 0 || bufs[j].dirty) && KeyOf(bufs[j]) != (dev, blockno)
      ensures ok ==>
                k < |bufs| && KeyOf(bufs[k]) == (dev, blockno)
                && bufs[k].refcnt == (if KeyOf(old(bufs)[k]) == (dev, blockno) then old(bufs)[k].refcnt + 1 else 1)
      ensures ok ==> forall j :: 0 <= j < |bufs| && j != k ==> bufs[j] == old(bufs)[j]
      ensures ok && KeyOf(old(bufs)[k]) == (dev, blockno) ==> bufs[k] == old(bufs)[k].(refcnt := bufs[k].refcnt)
      ensures ok && KeyOf(old(bufs)[k]) != (dev, blockno) ==>
                && !bufs[k].valid && !bufs[k].dirty && Evictable(old(bufs)[k])
                && (forall j :: 0 <= j < |bufs| ==> KeyOf(old(bufs)[j]) != (dev, blockno))
                && (forall j :: 0 <= j < |bufs| && Evictable(old(bufs)[j]) ==> stamps[k] <= stamps[j])
    {
      hide Linked;
      ghost var p;
      var found;
      DistinctList(next, prev, |bufs|, list);
      k, found, p := FindKey(dev, blockno);
      if found {
        HitKeeps(bufs, list, p);
        CountCoherent(bufs, disk, truth, k, bufs[k].refcnt + 1);
        bufs := bufs[k := bufs[k].(refcnt := bufs[k].refcnt + 1)];
        return k, true;
      }
      AllKeys(bufs, list, (dev, blockno));
      k, found, p := FindVictim();
      if !found {
        AllPinned(bufs, list);
        return 0, false;
      }
      var x := Buf(dev, blockno, 1, false, false, bufs[k].data);
      RecycleKeeps(bufs, list, p, x);
      RecycleCoherent(bufs, disk, truth, k, x);
      OldestVictim(bufs, list, p, stamps, clock);
      bufs := bufs[k := x];
      return k, true;
    }

    /* iderw on the disk in memory; ok is false where it panics. */
    method Iderw(k: nat) returns (ok: bool)
      requires Valid() && k < |bufs| && bufs[k].refcnt > 0
      modifies this`bufs, this`disk
      ensures Valid()
      ensures ok <==> (old(bufs)[k].dirty || !old(bufs)[k].valid) && KeyOf(old(bufs)[k]) in disk
      ensures !ok ==> bufs == old(bufs) && disk == old(disk)
      ensures ok && old(bufs)[k].dirty ==>
                bufs == old(bufs)[k := old(bufs)[k].(dirty := false)]
                && disk == old(disk)[KeyOf(bufs[k]) := bufs[k].data]
      ensures ok && !old(bufs)[k].dirty ==>
                disk == old(disk) && KeyOf(old(bufs)[k]) in disk &&
                bufs == old(bufs)[k := old(bufs)[k].(valid := true, data := disk[KeyOf(old(bufs)[k])])]
    {
      hide Linked;
      hide ByRelease;
      hide Whole;
      hide LiveFirst;
      hide Coherent;
      if bufs[k].valid && !bufs[k].dirty {
        return false;
      }
      var key := KeyOf(bufs[k]);
      if key !in disk {
        return false;
      }
      if bufs[k].dirty {
        WriteCoherent(bufs, list, disk, truth, k, bufs[k].data);
        WrittenBack(bufs, disk, truth, k);
        SameKeyKeeps(bufs, list, k, bufs[k].(valid := true, dirty := false));
        disk := disk[key := bufs[k].data];
        bufs := bufs[k := bufs[k].(dirty := false)];
        assert bufs[k := bufs[k].(valid := true)] == old(bufs)[k := old(bufs)[k].(valid := true, dirty := false)];
      } else {
        FillCoherent(bufs, list, disk, truth, k);
        SameKeyKeeps(bufs, list, k, bufs[k].(valid := true, data := disk[key]));
        bufs := bufs[k := bufs[k].(data := disk[key])];
        assert bufs[k := bufs[k].(valid := true)] == old(bufs)[k := old(bufs)[k].(valid := true, data := disk[key])];
      }
      bufs := bufs[k := bufs[k].(valid := true)];
      return true;
    }

    /* bread: a referenced buffer with what was last written to the block; ok is false where
       bget or iderw panics. */
    method Bread(dev: nat, blockno: nat) returns (k: nat, ok: bool)
      requires Valid()
      modifies this`bufs, this`disk
      ensures Valid() && |bufs| == |old(bufs)| && disk == old(disk)
      ensures ok ==> k < |bufs| && KeyOf(bufs[k]) == (dev, blockno) && bufs[k].valid && bufs[k].refcnt > 0
      ensures ok ==> (dev, blockno) in truth && bufs[k].data == truth[(dev, blockno)]
      ensures ok ==> forall j :: 0 <= j < |bufs| && j != k ==> bufs[j] == old(bufs)[j]
      ensures ok ==> bufs[k].refcnt == (if KeyOf(old(bufs)[k]) == (dev, blockno) then old(bufs)[k].refcnt + 1 else 1)
      ensures ok ==> KeyOf(old(bufs)[k]) == (dev, blockno) || Evictable(old(bufs)[k])
      ensures ok ==> bufs[k].dirty == (KeyOf(old(bufs)[k]) == (dev, blockno) && old(bufs)[k].dirty)
      ensures !ok ==> (dev, blockno) !in disk || forall j :: 0 <= j < |bufs| ==> !Evictable(bufs[j])
      ensures !ok ==>
                (dev, blockno) !in disk || forall j :: 0 <= j < |bufs| ==>
                  !Evictable(old(bufs)[j]) && KeyOf(old(bufs)[j]) != (dev, blockno)
    {
      hide Linked;
      hide ByRelease;
      hide Whole;
      hide LiveFirst;
      k, ok := Bget(dev, blockno);
      if !ok {
        return;
      }
      if !bufs[k].valid {
        NotDirty(bufs, disk, truth, k);
        ok := Iderw(k);
      }
    }

    /* log_write after a change of the data: the new contents are pinned in the cache. */
    method LogWrite(k: nat, d: Block)
      requires Valid() && k < |bufs| && bufs[k].refcnt > 0 && bufs[k].valid
      modifies this`bufs, this`truth
      ensures Valid() && bufs == old(bufs)[k := old(bufs)[k].(data := d, dirty := true)]
      ensures truth == old(truth)[KeyOf(bufs[k]) := d]
    {
      hide Linked;
      hide ByRelease;
      hide Whole;
      PinCoherent(bufs, list, disk, truth, k, d);
      SameKeyKeeps(bufs, list, k, bufs[k].(data := d, dirty := true));
      truth := truth[KeyOf(bufs[k]) := d];
      bufs := bufs[k := bufs[k].(data := d, dirty := true)];
    }

    /* bwrite after a change of the data: the new contents are on the disk. */
    method Bwrite(k: nat, d: Block) returns (ok: bool)
      requires Valid() && k < |bufs| && bufs[k].refcnt > 0 && bufs[k].valid
      modifies this`bufs, this`truth, this`disk
      ensures ok && Valid() && bufs == old(bufs)[k := old(bufs)[k].(data := d, dirty := false)]
      ensures truth == old(truth)[KeyOf(bufs[k]) := d] && disk == old(disk)[KeyOf(bufs[k]) := d]
    {
      hide Linked;
      hide ByRelease;
      hide Whole;
      hide LiveFirst;
      LogWrite(k, d);
      ok := Iderw(k);
    }

    /* The relinking in brelse. */
    method ToFront(k: nat, ghost p: nat)
      requires Linked(next, prev, |bufs|, list) && p < |list| && list[p] == k
      modifies this`next, this`prev
      ensures Linked(next, prev, |bufs|, [k] + Without(list, p)) && |next| == |old(next)|
    {
      hide Linked;
      hide Without;
      LinkedFacts(next, prev, |bufs|, list);
      DistinctList(next, prev, |bufs|, list);
      InBounds(next, prev, |bufs|, list, p);
      Unlink(next, prev, |bufs|, list, p);
      var head := |bufs|;
      var n, q := next[k], prev[k];
      prev := prev[n := q];
      next := next[q := n];
      GoneFrom(list, p);
      PushFront(next, prev, head, Without(list, p), k);
      var f := next[head];
      next := next[k := f];
      prev := prev[k := head];
      prev := prev[f := k];
      next := next[head := k];
    }

    /* brelse: the last release moves the buffer to the front of the list. */
    method Brelse(k: nat)
      requires Valid() && k < |bufs| && bufs[k].refcnt > 0 && bufs[k].valid
      modifies this`bufs, this`next, this`prev, this`list, this`stamps, this`clock
      ensures Valid() && bufs == old(bufs)[k := old(bufs)[k].(refcnt := old(bufs)[k].refcnt - 1)]
      ensures bufs[k].refcnt > 0 ==> list == old(list)
      ensures bufs[k].refcnt == 0 ==>
                exists p :: 0 <= p < |old(list)| && old(list)[p] == k && list == [k] + Without(old(list), p)
    {
      hide Coherent;
      hide Linked;
      hide LiveFirst;
      hide ByRelease;
      hide Whole;
      hide Without;
      InList(list, |bufs|, k);
      ghost var p :| 0 <= p < |list| && list[p] == k;
      SameKeyKeeps(bufs, list, k, bufs[k].(refcnt := bufs[k].refcnt - 1));
      CountCoherent(bufs, disk, truth, k, bufs[k].refcnt - 1);
      bufs := bufs[k := bufs[k].(refcnt := bufs[k].refcnt - 1)];
      if bufs[k].refcnt == 0 {
        DistinctList(next, prev, |bufs|, list);
        FrontOrdered(bufs, list, p, stamps, clock);
        ToFront(k, p);
        list, stamps, clock := [k] + Without(list, p), stamps[k := clock], clock + 1;
      }
    }
  }

  lemma DistinctList(next: seq<nat>, prev: seq<nat>, head: nat, list: seq<nat>)
    requires Linked(next, prev, head, list)
    ensures forall i, j :: 0 <= i < j < |list| ==> list[i] != list[j]
  {
  }

  lemma AllKeys(bufs: seq<Buf>, list: seq<nat>, key: Key)
    requires Whole(list, |bufs|) && forall q :: 0 <= q < |list| ==> KeyOf(bufs[list[q]]) != key
    ensures forall j :: 0 <= j < |bufs| ==> KeyOf(bufs[j]) != key
  {
    forall j | 0 <= j < |bufs| ensures KeyOf(bufs[j]) != key {
      assert j in list;
      var q :| 0 <= q < |list| && list[q] == j;
    }
  }

  lemma AllPinned(bufs: seq<Buf>, list: seq<nat>)
    requires Whole(list, |bufs|) && forall q :: 0 <= q < |list| ==> !Evictable(bufs[list[q]])
    ensures forall j :: 0 <= j < |bufs| ==> !Evictable(bufs[j])
  {
    forall j | 0 <= j < |bufs| ensures !Evictable(bufs[j]) {
      assert j in list;
      var q :| 0 <= q < |list| && list[q] == j;
    }
  }

  lemma OldestVictim(bufs: seq<Buf>, list: seq<nat>, p: nat, stamps: seq<nat>, clock: nat)
    requires Whole(list, |bufs|) && |stamps| == |bufs| && ByRelease(list, stamps, clock) && p < |list|
    requires forall q :: p < q < |list| ==> !Evictable(bufs[list[q]])
    ensures forall j :: 0 <= j < |bufs| && Evictable(bufs[j]) ==> stamps[list[p]] <= stamps[j]
  {
    forall j | 0 <= j < |bufs| && Evictable(bufs[j]) ensures stamps[list[p]] <= stamps[j] {
      assert j in list;
      var q :| 0 <= q < |list| && list[q] == j;
      assert q < p || q == p || p < q;
    }
  }

  lemma InList(list: seq<nat>, n: nat, k: nat)
    requires Whole(list, n) && k < n
    ensures k in list
  {
  }

  lemma InBounds(next: seq<nat>, prev: seq<nat>, head: nat, list: seq<nat>, p: nat)
    requires Linked(next, prev, head, list) && p < |list|
    ensures list[p] < |next| && list[p] != head
  {
  }

  lemma GoneFrom(list: seq<nat>, p: nat)
    requires p < |list| && forall i, j :: 0 <= i < j < |list| ==> list[i] != list[j]
    ensures list[p] !in Without(list, p)
  {
  }

  lemma NotDirty(bufs: seq<Buf>, disk: map<Key, Block>, truth: map<Key, Block>, k: nat)
    requires Coherent(bufs, disk, truth) && k < |bufs| && !bufs[k].valid
    ensures !bufs[k].dirty
  {
  }

  lemma WrittenBack(bufs: seq<Buf>, disk: map<Key, Block>, truth: map<Key, Block>, k: nat)
    requires Coherent(bufs, disk, truth) && k < |bufs| && bufs[k].dirty
    ensures bufs[k].valid && KeyOf(bufs[k]) in truth && truth[KeyOf(bufs[k]) := bufs[k].data] == truth
  {
  }

  // ----- swapping pages of eight blocks on device 0 (fs.c)

  const SWAPBASE: nat := 500
  const SWAPMAX: nat := 100000 - SWAPBASE
  const PAGEBLOCKS: nat := 8

  function SwapKey(blkno: nat, i: nat): Key {
    (0, blkno + SWAPBASE + i)
  }

  /* Blocks blkno, ..., blkno + n - 1 of the swap area hold the first n blocks of the page,
     and nothing else changed. */
  ghost predicate Swapped(was: map<Key, Block>, now: map<Key, Block>, blkno: nat, page: seq<Block>, n: nat) {
    && n <= |page| && now.Keys == was.Keys
    && (forall i :: 0 <= i < n ==> SwapKey(blkno, i) in now && now[SwapKey(blkno, i)] == page[i])
    && (forall key :: key in was && !(key.0 == 0 && blkno + SWAPBASE <= key.1 < blkno + SWAPBASE + n) ==>
          now[key] == was[key])
  }

  lemma SwappedOneMore(was: map<Key, Block>, now: map<Key, Block>, blkno: nat, page: seq<Block>, n: nat)
    requires Swapped(was, now, blkno, page, n) && n < |page| && SwapKey(blkno, n) in now
    ensures Swapped(was, now[SwapKey(blkno, n) := page[n]], blkno, page, n + 1)
  {
  }

  /* Every buffer is referenced or pinned. */
  ghost predicate NoBuffer(c: Bcache)
    reads c
  {
    forall j :: 0 <= j < |c.bufs| ==> !Evictable(c.bufs[j])
  }

  /* swapwrite; ok is false where it, bread or bwrite panics. */
  method Swapwrite(c: Bcache, page: seq<Block>, blkno: int) returns (ok: bool)
    requires c.Valid() && |page| == PAGEBLOCKS
    modifies c
    ensures c.Valid() && (!(0 <= blkno < SWAPMAX) ==> !ok && c.truth == old(c.truth))
    ensures ok ==> Swapped(old(c.truth), c.truth, blkno, page, PAGEBLOCKS)
    ensures !ok ==>
              !(0 <= blkno < SWAPMAX) || NoBuffer(c) || exists i :: 0 <= i < PAGEBLOCKS && SwapKey(blkno, i) !in c.truth
  {
    hide Bcache.Valid;
    hide SwapKey;
    if blkno < 0 || blkno >= SWAPMAX {
      return false;
    }
    var i := 0;
    while i < PAGEBLOCKS
      invariant 0 <= i <= PAGEBLOCKS && c.Valid() && Swapped(old(c.truth), c.truth, blkno, page, i)
    {
      var k;
      KeyIs(blkno, i);
      k, ok := c.Bread(0, blkno + SWAPBASE + i);
      if !ok {
        SameBlocks(c);
        return false;
      }
      assert KeyOf(c.bufs[k]) == SwapKey(blkno, i) by { KeyIs(blkno, i); }
      SwappedOneMore(old(c.truth), c.truth, blkno, page, i);
      ok := c.Bwrite(k, page[i]);
      c.Brelse(k);
      i := i + 1;
    }
    return true;
  }

  lemma SameBlocks(c: Bcache)
    requires c.Valid()
    ensures c.truth.Keys == c.disk.Keys
  {
  }

  lemma KeyIs(blkno: nat, i: nat)
    ensures SwapKey(blkno, i) == (0, blkno + SWAPBASE + i)
  {
  }

  method Swapread(c: Bcache, blkno: int) returns (page: seq<Block>, ok: bool)
    requires c.Valid()
    modifies c
    ensures c.Valid() && c.truth == old(c.truth) && (!(0 <= blkno < SWAPMAX) ==> !ok)
    ensures !ok ==>
              !(0 <= blkno < SWAPMAX) || NoBuffer(c) || exists i :: 0 <= i < PAGEBLOCKS && SwapKey(blkno, i) !in c.truth
    ensures ok ==>
              |page| == PAGEBLOCKS
              && forall i :: 0 <= i < PAGEBLOCKS ==>
                   SwapKey(blkno, i) in c.truth && page[i] == c.truth[SwapKey(blkno, i)]
  {
    hide Bcache.Valid;
    hide SwapKey;
    page := [];
    if blkno < 0 || blkno >= SWAPMAX {
      return page, false;
    }
    var i := 0;
    while i < PAGEBLOCKS
      invariant 0 <= i <= PAGEBLOCKS && c.Valid() && c.truth == old(c.truth) && |page| == i
      invariant forall j :: 0 <= j < i ==> SwapKey(blkno, j) in c.truth && page[j] == c.truth[SwapKey(blkno, j)]
    {
      var k;
      KeyIs(blkno, i);
      k, ok := c.Bread(0, blkno + SWAPBASE + i);
      if !ok {
        SameBlocks(c);
        return page, false;
      }
      page := page + [c.bufs[k].data];
      c.Brelse(k);
      i := i + 1;
    }
    return page, true;
  }

  /* What was swapped out comes back, whatever else is swapped out in between, as long as
     it is at least a page away; and device 1 never changes. */
  lemma SwapRoundTrip(t0: map<Key, Block>, t1: map<Key, Block>, t2: map<Key, Block>, blkno: nat, page: seq<Block>,
                      other: nat, page2: seq<Block>, i: nat)
    requires |page| == |page2| == PAGEBLOCKS && Swapped(t0, t1, blkno, page, PAGEBLOCKS)
             && Swapped(t1, t2, other, page2, PAGEBLOCKS)
    requires i < PAGEBLOCKS
    ensures other + PAGEBLOCKS <= blkno || blkno + PAGEBLOCKS <= other ==>
              SwapKey(blkno, i) in t2 && t2[SwapKey(blkno, i)] == page[i]
    ensures forall b :: (1, b) in t0 ==> (1, b) in t2 && t2[(1, b)] == t0[(1, b)]
  {
    assert t1[SwapKey(blkno, i)] == page[i];
  }

  /* A page swapped out, another one swapped out at least a page away, and the first swapped
     in again: it is what it was. */
  method SwapOutAndIn(c: Bcache, page: seq<Block>, blkno: int, page2: seq<Block>, other: int)
    returns (back: seq<Block>, ok: bool)
    requires c.Valid() && |page| == |page2| == PAGEBLOCKS
    requires other + PAGEBLOCKS <= blkno || blkno + PAGEBLOCKS <= other
    modifies c
    ensures c.Valid() && (ok ==> back == page)
    ensures ok ==> forall b :: (1, b) in old(c.truth) ==> (1, b) in c.truth && c.truth[(1, b)] == old(c.truth)[(1, b)]
  {
    hide Bcache.Valid;
    hide Swapped;
    hide SwapKey;
    back := [];
    ghost var t0 := c.truth;
    ok := Swapwrite(c, page, blkno);
    if !ok {
      return back, false;
    }
    ghost var t1 := c.truth;
    ok := Swapwrite(c, page2, other);
    if !ok {
      return back, false;
    }
    ghost var t2 := c.truth;
    back, ok := Swapread(c, blkno);
    forall i | 0 <= i < PAGEBLOCKS ensures ok ==> back[i] == page[i] {
      SwapRoundTrip(t0, t1, t2, blkno, page, other, page2, i);
    }
    SwapRoundTrip(t0, t1, t2, blkno, page, other, page2, 0);
  }
}
