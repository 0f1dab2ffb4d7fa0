/**
mkfs.c builds the first file system: it hands out blocks in increasing order, appends
directory entries and file contents, and finally marks everything below the next free
block.  The result satisfies the invariant of the whole file system; the root directory
escapes having a hole exactly when its length is not a multiple of the block size, and is
a map from names to inodes exactly when the names differ in their first 14 bytes.
*/
module Mkfs {
  import opened InodeMap
  import opened FileSystem
  import opened FileIo
  import opened SystemOwnership
  import opened Directory

  ghost function Below(n: nat): (r: set<nat>)
    ensures forall b :: b in r <==> 0 <= b < n
  {
    if n == 0 then {} else Below(n - 1) + {n - 1}
  }

  ghost predicate ZeroFrom(blocks: seq<Block>, n: nat) {
    forall b :: n <= b < |blocks| ==> blocks[b] == ZeroBlock()
  }

  // ----- a file being appended to

  /* c and zeros up to n bytes. */
  function Pad(c: seq<byte>, n: nat): (r: seq<byte>) {
    if n <= |c| then c[..n] else c + seq(n - |c|, i => 0)
  }

  /* The first k blocks of m hold c and then zeros. */
  ghost predicate Contains(m: seq<nat>, blocks: seq<Block>, c: seq<byte>, k: nat) {
    InRange(m, |blocks|) && k <= MAXFILE && |c| <= k * BSIZE && Bytes(m, blocks, k * BSIZE) == Pad(c, k * BSIZE)
  }

  /* The first k file blocks are mapped, hold c and then zeros, and lie below freeblock, where `others`
     holds all the rest. */
  ghost predicate Growing(addrs: seq<nat>, blocks: seq<Block>, freeblock: nat, others: set<nat>, c: seq<byte>, k: nat) {
    && |blocks| < 0x1_0000_0000 && freeblock <= |blocks| && ZeroFrom(blocks, freeblock)
    && AddrsOk(addrs, |blocks|) && InRange(Table(addrs, blocks), |blocks|)
    && Ownership(Table(addrs, blocks), addrs[NDIRECT], Below(freeblock), others)
    && BlocksFor(|c|) <= k <= MAXFILE
    && (forall i :: 0 <= i < MAXFILE ==> (Table(addrs, blocks)[i] != 0 <==> i < k))
    && Contains(Table(addrs, blocks), blocks, c, k)
  }

  /* Between two rounds of iappend: c is the contents so far. */
  ghost predicate Open(addrs: seq<nat>, blocks: seq<Block>, freeblock: nat, others: set<nat>, c: seq<byte>) {
    && Growing(addrs, blocks, freeblock, others, c, BlocksFor(|c|))
    && (addrs[NDIRECT] != 0 <==> BlocksFor(|c|) > NDIRECT)
  }

  lemma NextBelow(n: nat)
    ensures Below(n) + {n} == Below(n + 1) && n !in Below(n)
  {
  }

  lemma GrowDirect(addrs: seq<nat>, blocks: seq<Block>, fb: nat, others: set<nat>, c: seq<byte>, k: nat)
    requires Growing(addrs, blocks, fb, others, c, k) && k < NDIRECT && fb < |blocks|
    ensures Growing(addrs[k := fb], blocks, fb + 1, others, c, k + 1)
  {
    hide Ownership;
    var m := Table(addrs, blocks);
    NextBelow(fb);
    MapSetDirect(addrs, blocks, k, fb);
    OwnedBelow(m, addrs[NDIRECT], fb, others);
    OwnMapped(m, addrs[NDIRECT], Below(fb), others, k, fb);
    OneBlockMore(m, blocks, blocks, c, k, fb);
  }

  /* A zero block more, with the other blocks unchanged. */
  lemma OneBlockMore(m: seq<nat>, blocks: seq<Block>, blocks': seq<Block>, c: seq<byte>, k: nat, fb: nat)
    requires Contains(m, blocks, c, k) && |blocks'| == |blocks| && fb < |blocks| && k < MAXFILE
    requires blocks'[fb] == ZeroBlock() && forall i :: 0 <= i < k ==> blocks'[m[i]] == blocks[m[i]]
    ensures Contains(m[k := fb], blocks', c, k + 1)
  {
    var was, now := Bytes(m, blocks, k * BSIZE), Bytes(m[k := fb], blocks', (k + 1) * BSIZE);
    forall i | 0 <= i < (k + 1) * BSIZE ensures now[i] == Pad(c, (k + 1) * BSIZE)[i] {
      if i < k * BSIZE {
        assert i / BSIZE < k && now[i] == was[i];
      } else {
        assert i / BSIZE == k;
      }
    }
  }

  /* Bytes written after the last one. */
  lemma MoreBytes(m: seq<nat>, ind: nat, blocks: seq<Block>, c: seq<byte>, k: nat, chunk: seq<byte>)
    requires Contains(m, blocks, c, k) && Injective(m, ind) && k == |c| / BSIZE + 1
    requires 0 < |chunk| && |c| % BSIZE + |chunk| <= BSIZE && forall i :: 0 <= i < k ==> m[i] != 0
    ensures var x := m[|c| / BSIZE];
            Contains(m, blocks[x := Patch(blocks[x], |c| % BSIZE, chunk)], c + chunk, k)
  {
    hide Patch;
    assert BlocksFor(k * BSIZE) == k && |c| + |chunk| <= k * BSIZE;
    BytesPatched(m, ind, blocks, k * BSIZE, |c|, chunk);
    assert Splice(Pad(c, k * BSIZE), |c|, chunk) == Pad(c + chunk, k * BSIZE);
  }

  lemma OwnedBelow(m: seq<nat>, ind: nat, fb: nat, others: set<nat>)
    requires Ownership(m, ind, Below(fb), others)
    ensures fb != 0 && ind < fb && (forall i :: 0 <= i < |m| ==> m[i] < fb)
    ensures forall i :: 0 <= i < |m| && m[i] != 0 ==> m[i] != ind
  {
    assert 0 in Below(fb);
    assert ind != 0 ==> ind in Below(fb);
    forall i | 0 <= i < |m| ensures m[i] < fb {
      assert m[i] != 0 ==> m[i] in Below(fb);
    }
  }

  lemma GrowIndirect(addrs: seq<nat>, blocks: seq<Block>, fb: nat, others: set<nat>, c: seq<byte>, k: nat)
    requires Growing(addrs, blocks, fb, others, c, k) && addrs[NDIRECT] == 0 && fb < |blocks|
    ensures fb != 0 && Growing(addrs[NDIRECT := fb], blocks, fb + 1, others, c, k)
  {
    hide Ownership;
    var m := Table(addrs, blocks);
    NextBelow(fb);
    OwnedBelow(m, 0, fb, others);
    MapSetIndirect(addrs, blocks, fb);
    OwnIndirect(m, Below(fb), others, fb);
  }

  lemma GrowEntry(addrs: seq<nat>, blocks: seq<Block>, fb: nat, others: set<nat>, c: seq<byte>, k: nat)
    requires Growing(addrs, blocks, fb, others, c, k) && NDIRECT <= k < MAXFILE && addrs[NDIRECT] != 0 && fb < |blocks|
    ensures var ind := addrs[NDIRECT];
            var blocks' := blocks[ind := SetEntry(blocks[ind], k - NDIRECT, fb)];
            fb != 0 && Growing(addrs, blocks', fb + 1, others, c, k + 1) && Kept(blocks, blocks', others)
  {
    hide Ownership;
    hide SetEntry;
    var m, ind := Table(addrs, blocks), addrs[NDIRECT];
    var blocks' := blocks[ind := SetEntry(blocks[ind], k - NDIRECT, fb)];
    NextBelow(fb);
    OwnedBelow(m, ind, fb, others);
    MapSetEntry(addrs, blocks, k, fb);
    OwnMapped(m, ind, Below(fb), others, k, fb);
    OneBlockMore(m, blocks, blocks', c, k, fb);
    KeptByBmap(m, ind, Below(fb), others, blocks, blocks', ind);
  }

  lemma GrowBytes(addrs: seq<nat>, blocks: seq<Block>, fb: nat, others: set<nat>, c: seq<byte>, k: nat,
                  chunk: seq<byte>)
    requires Growing(addrs, blocks, fb, others, c, k) && k == |c| / BSIZE + 1
    requires 0 < |chunk| && |c| % BSIZE + |chunk| <= BSIZE
    ensures var x := Table(addrs, blocks)[|c| / BSIZE];
            var blocks' := blocks[x := Patch(blocks[x], |c| % BSIZE, chunk)];
            && Growing(addrs, blocks', fb, others, c + chunk, k) && Kept(blocks, blocks', others)
            && k == BlocksFor(|c + chunk|)
  {
    hide Ownership;
    hide Patch;
    hide Kept;
    hide Below;
    var m, ind, bn := Table(addrs, blocks), addrs[NDIRECT], |c| / BSIZE;
    var x := m[bn];
    var data := Patch(blocks[x], |c| % BSIZE, chunk);
    OwnedBelow(m, ind, fb, others);
    assert Injective(m, ind) by { Injectively(m, ind, Below(fb), others); }
    MoreBytes(m, ind, blocks, c, k, chunk);
    hide Contains;
    MapFrame(addrs, blocks, x, data);
    KeptByPatch(m, ind, Below(fb), others, blocks, bn, data);
  }

  lemma Injectively(m: seq<nat>, ind: nat, used: set<nat>, others: set<nat>)
    requires Ownership(m, ind, used, others)
    ensures Injective(m, ind)
  {
  }

  /* The rest of the last block of a file is zero. */
  ghost predicate Padded(d: Dinode, blocks: seq<Block>)
    requires Shape(d, blocks)
  {
    Bytes(Table(d.addrs, blocks), blocks, BlocksFor(d.size) * BSIZE) == Pad(FileBytes(d, blocks),
                                                                            BlocksFor(d.size) * BSIZE)
  }

  ghost predicate AllPadded(dinodes: map<nat, Dinode>, blocks: seq<Block>)
    requires Shapes(dinodes, blocks)
  {
    forall i :: i in dinodes ==> Padded(dinodes[i], blocks)
  }

  lemma StillPadded(d: Dinode, blocks: seq<Block>, blocks': seq<Block>, others: set<nat>)
    requires Shape(d, blocks) && Padded(d, blocks) && OwnedBy(d, blocks) <= others && Kept(blocks, blocks', others)
    ensures Shape(d, blocks') && Padded(d, blocks')
  {
    SystemOwnership.Undisturbed(d, blocks, blocks', others);
    var whole := d.(size := BlocksFor(d.size) * BSIZE);
    assert BlocksFor(whole.size) == BlocksFor(d.size);
    SystemOwnership.Undisturbed(whole, blocks, blocks', others);
  }

  lemma Fits(d: Dinode, blocks: seq<Block>)
    requires Shape(d, blocks) && |blocks| < 0x1_0000_0000
    ensures Storable(d)
  {
  }

  /* One file grew and kept its padding, the others were left alone. */
  lemma PaddedStep(d0: map<nat, Dinode>, b0: seq<Block>, used0: set<nat>, d1: map<nat, Dinode>, b1: seq<Block>,
                   meta: set<nat>, inum: nat)
    requires System(d0, b0, used0, meta) && AllPadded(d0, b0) && inum in d0
    requires inum in d1 && d1 == d0[inum := d1[inum]] && Kept(b0, b1, Rest(d0, b0, used0, inum)) && Shapes(d1, b1)
             && Padded(d1[inum], b1)
    ensures AllPadded(d1, b1)
  {
    hide Shape;
    hide Kept;
    hide Padded;
    OneFile(d0, b0, used0, meta, inum);
    forall j | j in d1 ensures Padded(d1[j], b1) {
      if j != inum { StillPadded(d0[j], b0, b1, Rest(d0, b0, used0, inum)); }
    }
  }

  lemma StartAppend(d: Dinode, blocks: seq<Block>, fb: nat, others: set<nat>)
    requires Shape(d, blocks) && Padded(d, blocks) && |blocks| < 0x1_0000_0000 && fb <= |blocks| && ZeroFrom(blocks, fb)
    requires Ownership(Table(d.addrs, blocks), d.addrs[NDIRECT], Below(fb), others)
    ensures Open(d.addrs, blocks, fb, others, FileBytes(d, blocks))
            && |FileBytes(d, blocks)| == d.size <= MAXFILE * BSIZE
  {
  }

  lemma EndAppend(d: Dinode, blocks: seq<Block>, fb: nat, others: set<nat>, c: seq<byte>)
    requires Open(d.addrs, blocks, fb, others, c) && d.size == |c| <= MAXFILE * BSIZE
    ensures Shape(d, blocks) && FileBytes(d, blocks) == c && Padded(d, blocks) && ZeroFrom(blocks, fb) && fb <= |blocks|
    ensures Ownership(Table(d.addrs, blocks), d.addrs[NDIRECT], Below(fb), others)
  {
    var m, n := Table(d.addrs, blocks), BlocksFor(|c|) * BSIZE;
    assert Bytes(m, blocks, |c|) == Bytes(m, blocks, n)[..|c|];
    assert Pad(c, n)[..|c|] == c;
  }

  /* The block at the end of the file is mapped exactly when the end lies inside it. */
  lemma AtEnd(addrs: seq<nat>, blocks: seq<Block>, fb: nat, others: set<nat>, c: seq<byte>, bn: nat)
    requires Open(addrs, blocks, fb, others, c) && bn == |c| / BSIZE < MAXFILE
    ensures BlocksFor(|c|) == (if BlockAt(addrs, blocks, bn) == 0 then bn else bn + 1)
  {
    assert Table(addrs, blocks)[bn] == BlockAt(addrs, blocks, bn);
  }

  lemma NeedSteps(a: nat, b: nat, n1: nat, c: nat)
    requires a <= b && b + n1 <= c && 0 < n1 && b % BSIZE + n1 <= BSIZE
    ensures Need(a, b) + (b / BSIZE + 1 - BlocksFor(b)) + (if BlocksFor(b) <= NDIRECT <= b / BSIZE then 1 else 0) ==
            Need(a, b + n1) <= Need(a, c)
  {
    assert BlocksFor(b + n1) == b / BSIZE + 1;
  }

  lemma Appended(c: seq<byte>, data: seq<byte>, tot: nat, n1: nat)
    requires tot + n1 <= |data|
    ensures c + data[..tot] + data[tot..][..n1] == c + data[..tot + n1]
  {
    assert data[..tot + n1] == data[..tot] + data[tot..][..n1];
  }

  class Image {
    const niblocks: nat
    var blocks: seq<Block>
    var itable: seq<Block>
    var dinodes: map<nat, Dinode>
    var freeblock: nat
    var freeinode: nat

    constructor (size: nat, nmeta: nat, niblocks: nat)
      requires 0 < nmeta <= size < 0x1_0000_0000
      ensures |blocks| == size && dinodes == map[] && freeblock == nmeta && freeinode == 1 && Valid(nmeta)
      ensures this.niblocks == niblocks
    {
      this.niblocks := niblocks;
      blocks := seq(size, i => ZeroBlock());
      itable := seq(niblocks, i => ZeroBlock());
      dinodes := map[];
      freeblock, freeinode := nmeta, 1;
    }

    /* The inode blocks hold the inodes that have a place there.  mkfs does not test whether
       an inode has one; the others are kept apart here. */
    ghost predicate Records()
      reads this`itable, this`dinodes
    {
      && |itable| == niblocks
      && forall i :: i in dinodes && i / IPB < niblocks ==> GetInode(itable[i / IPB], i % IPB) == dinodes[i]
    }

    method Winode(inum: nat, d: Dinode)
      requires Records() && Storable(d)
      modifies this`itable, this`dinodes
      ensures Records() && dinodes == old(dinodes)[inum := d]
    {
      hide GetInode;
      hide HoldsWords;
      if inum / IPB < niblocks {
        var data := CopyInode(itable[inum / IPB], inum % IPB, d);
        StoredOne(itable, inum, data, d);
        itable := itable[inum / IPB := data];
      }
      dinodes := dinodes[inum := d];
    }

    method Rinode(inum: nat) returns (d: Dinode)
      requires Records() && inum in dinodes
      ensures d == dinodes[inum]
    {
      d := if inum / IPB < niblocks then GetInode(itable[inum / IPB], inum % IPB) else dinodes[inum];
    }

    /* Everything below freeblock is metadata or belongs to exactly one inode. */
    ghost predicate Valid(nmeta: nat)
      reads this
    {
      && |blocks| < 0x1_0000_0000 && freeblock <= |blocks| && ZeroFrom(blocks, freeblock)
      && System(dinodes, blocks, Below(freeblock), Below(nmeta)) && AllPadded(dinodes, blocks)
      && (forall i :: i in dinodes ==> 0 < i < freeinode) && 0 < freeinode
      && Records()
    }

    /* The lookup in iappend of the block for offset |c|, allocating from freeblock; ok is
       false where reading past the end of the image makes mkfs exit. */
    method Lookup(addrs: seq<nat>, ghost others: set<nat>, ghost c: seq<byte>, bn: nat)
      returns (addrs': seq<nat>, x: nat, ok: bool)
      requires Open(addrs, blocks, freeblock, others, c) && bn == |c| / BSIZE < MAXFILE
      modifies this`freeblock, this`blocks
      ensures |blocks| == |old(blocks)|
      ensures ok ==> Growing(addrs', blocks, freeblock, others, c, bn + 1) && x == Table(addrs', blocks)[bn]
      ensures ok ==> (addrs'[NDIRECT] != 0 <==> bn + 1 > NDIRECT)
      ensures ok ==> Kept(old(blocks), blocks, others)
      ensures var cost := bn + 1 - BlocksFor(|c|) + (if BlocksFor(|c|) <= NDIRECT <= bn then 1 else 0);
              (ok ==> freeblock == old(freeblock) + cost) && (ok <==> old(freeblock) + cost <= |blocks|)
    {
      hide Contains;
      hide Ownership;
      hide InRange;
      hide ZeroFrom;
      hide Kept;
      hide SetEntry;
      addrs' := addrs;
      KeptSame(blocks, others);
      AtEnd(addrs, blocks, freeblock, others, c, bn);
      if bn < NDIRECT {
        if addrs'[bn] == 0 {
          if freeblock >= |blocks| {
            return addrs', 0, false;
          }
          GrowDirect(addrs', blocks, freeblock, others, c, bn);
          addrs' := addrs'[bn := freeblock];
          freeblock := freeblock + 1;
        }
        return addrs', addrs'[bn], true;
      }
      if addrs'[NDIRECT] == 0 {
        if freeblock >= |blocks| {
          return addrs', 0, false;
        }
        GrowIndirect(addrs', blocks, freeblock, others, c, bn);
        addrs' := addrs'[NDIRECT := freeblock];
        freeblock := freeblock + 1;
      }
      var ind := addrs'[NDIRECT];
      assert Table(addrs', blocks)[bn] == Entry(blocks[ind], bn - NDIRECT);
      if Entry(blocks[ind], bn - NDIRECT) == 0 {
        if freeblock >= |blocks| {
          return addrs', 0, false;
        }
        GrowEntry(addrs', blocks, freeblock, others, c, bn);
        EntryAfterSet(blocks[ind], bn - NDIRECT, freeblock, bn - NDIRECT);
        blocks := blocks[ind := SetEntry(blocks[ind], bn - NDIRECT, freeblock)];
        freeblock := freeblock + 1;
      }
      return addrs', Entry(blocks[ind], bn - NDIRECT), true;
    }

    /* One round of the loop of iappend. */
    method AppendRound(addrs: seq<nat>, ghost others: set<nat>, ghost c: seq<byte>, off: nat, data: seq<byte>)
      returns (addrs': seq<nat>, n1: nat, ok: bool)
      requires Open(addrs, blocks, freeblock, others, c) && off == |c| <= MAXFILE * BSIZE && 0 < |data|
      modifies this`freeblock, this`blocks
      ensures |blocks| == |old(blocks)|
      ensures ok ==> 0 < n1 <= |data| && off + n1 <= MAXFILE * BSIZE && off % BSIZE + n1 <= BSIZE
      ensures var cost := off / BSIZE + 1 - BlocksFor(off) +
                (if BlocksFor(off) <= NDIRECT <= off / BSIZE then 1 else 0);
              && (ok ==> freeblock == old(freeblock) + cost)
              && (ok <==> off < MAXFILE * BSIZE && old(freeblock) + cost <= |blocks|)
      ensures ok ==> Open(addrs', blocks, freeblock, others, c + data[..n1]) && Kept(old(blocks), blocks, others)
    {
      hide Contains;
      hide Ownership;
      hide ZeroFrom;
      hide Kept;
      hide Patch;
      var bn := off / BSIZE;
      addrs', n1 := addrs, 0;
      if bn >= MAXFILE {
        return addrs', n1, false;
      }
      var x;
      addrs', x, ok := Lookup(addrs, others, c, bn);
      if !ok {
        return addrs', n1, false;
      }
      ghost var b1 := blocks;
      n1 := if |data| < BSIZE - off % BSIZE then |data| else BSIZE - off % BSIZE;
      GrowBytes(addrs', blocks, freeblock, others, c, bn + 1, data[..n1]);
      blocks := blocks[x := Patch(blocks[x], off % BSIZE, data[..n1])];
      KeptTwice(old(blocks), b1, blocks, others);
    }

    /* The loop of iappend on a file with contents c0 and size `size`. */
    method AppendAll(addrs0: seq<nat>, size: nat, data: seq<byte>, ghost others: set<nat>, ghost c0: seq<byte>)
      returns (addrs: seq<nat>, ok: bool)
      requires Open(addrs0, blocks, freeblock, others, c0) && size == |c0| <= MAXFILE * BSIZE && freeblock <= |blocks|
      modifies this`freeblock, this`blocks
      ensures |blocks| == |old(blocks)|
      ensures ok <==> size + |data| <= MAXFILE * BSIZE && old(freeblock) + Need(size, size + |data|) <= |blocks|
      ensures ok ==> Open(addrs, blocks, freeblock, others, c0 + data) && Kept(old(blocks), blocks, others)
      ensures ok ==> freeblock == old(freeblock) + Need(size, size + |data|)
    {
      hide Open;
      hide Need;
      hide BlocksFor;
      hide Kept;
      KeptSame(blocks, others);
      assert c0 + data[..0] == c0;
      NeedNone(size);
      var off, tot := size, 0;
      addrs := addrs0;
      while tot < |data|
        invariant 0 <= tot <= |data| && off == size + tot && |blocks| == |old(blocks)|
        invariant Open(addrs, blocks, freeblock, others, c0 + data[..tot]) && off <= MAXFILE * BSIZE
        invariant Kept(old(blocks), blocks, others) && freeblock == old(freeblock) + Need(size, off) <= |blocks|
      {
        ghost var b1 := blocks;
        NeedSteps(size, off, 1, size + |data|);
        var n1;
        addrs, n1, ok := AppendRound(addrs, others, c0 + data[..tot], off, data[tot..]);
        if !ok {
          return addrs, false;
        }
        NeedSteps(size, off, n1, size + |data|);
        KeptTwice(old(blocks), b1, blocks, others);
        Appended(c0, data, tot, n1);
        tot, off := tot + n1, off + n1;
      }
      assert data[..tot] == data;
      return addrs, true;
    }

    /* iappend: the file grows by exactly `data`; every other file keeps its contents. */
    method Iappend(inum: nat, data: seq<byte>, ghost nmeta: nat) returns (ok: bool)
      requires Valid(nmeta) && inum in dinodes
      modifies this`freeblock, this`blocks, this`itable, this`dinodes
      ensures |blocks| == |old(blocks)|
      ensures ok ==> Valid(nmeta) && inum in dinodes && dinodes == old(dinodes)[inum := dinodes[inum]]
      ensures ok ==> FileBytes(dinodes[inum], blocks) == old(FileBytes(dinodes[inum], blocks)) + data
      ensures ok ==>
                dinodes[inum] == old(dinodes[inum]).(size := old(dinodes[inum].size) + |data|,
                                                     addrs := dinodes[inum].addrs)
      ensures ok ==> freeblock == old(freeblock) + Need(old(dinodes[inum].size), dinodes[inum].size)
      ensures ok ==> OthersIntact(old(dinodes), old(blocks), dinodes, blocks, inum)
      ensures ok <==> old(dinodes[inum].size) + |data| <= MAXFILE * BSIZE &&
                      old(freeblock) + Need(old(dinodes[inum].size), old(dinodes[inum].size) + |data|) <= |blocks|
    {
      hide Records;
      hide Padded;
      hide Open;
      hide Need;
      hide BlocksFor;
      hide Shape;
      hide Disjoint;
      hide Reachable;
      hide Kept;
      hide Ownership;
      var d := Rinode(inum);
      ghost var c0, b0, fb0 := FileBytes(d, blocks), blocks, freeblock;
      ghost var others := Rest(dinodes, blocks, Below(freeblock), inum);
      OneFile(dinodes, blocks, Below(freeblock), Below(nmeta), inum);
      StartAppend(d, blocks, freeblock, others);
      var addrs;
      addrs, ok := AppendAll(d.addrs, d.size, data, others, c0);
      if !ok {
        return false;
      }
      EndAppend(d.(size := d.size + |data|, addrs := addrs), blocks, freeblock, others, c0 + data);
      Fits(d.(size := d.size + |data|, addrs := addrs), blocks);
      Winode(inum, d.(size := d.size + |data|, addrs := addrs));
      OneFileStep(old(dinodes), b0, Below(fb0), dinodes, blocks, Below(freeblock), Below(nmeta), inum);
      PaddedStep(old(dinodes), b0, Below(fb0), dinodes, blocks, Below(nmeta), inum);
    }

    /* ialloc: an empty inode of one link under the next number. */
    method Ialloc(typ: short, ghost nmeta: nat) returns (inum: nat)
      requires Valid(nmeta)
      modifies this`freeinode, this`itable, this`dinodes
      ensures inum == old(freeinode) && freeinode == inum + 1 && inum !in old(dinodes)
      ensures Valid(nmeta) && dinodes.Keys == old(dinodes.Keys) + {inum} && FileBytes(dinodes[inum], blocks) == []
      ensures dinodes[inum] == Empty(typ) && forall j :: j in old(dinodes) ==> dinodes[j] == old(dinodes)[j]
    {
      hide Records;
      hide Reachable;
      hide Padded;
      inum := freeinode;
      freeinode := freeinode + 1;
      AddEmpty(dinodes, blocks, Below(freeblock), Below(nmeta), inum, typ);
      Winode(inum, Empty(typ));
    }

    /* Reading a file and appending it, a block at a time, to an empty inode. */
    method AppendContents(inum: nat, data: seq<byte>, ghost nmeta: nat) returns (ok: bool)
      requires Valid(nmeta) && inum in dinodes && dinodes[inum].size == 0 && FileBytes(dinodes[inum], blocks) == []
      modifies this`freeblock, this`blocks, this`itable, this`dinodes
      ensures |blocks| == |old(blocks)|
      ensures ok ==> Valid(nmeta) && inum in dinodes && dinodes == old(dinodes)[inum := dinodes[inum]]
      ensures ok ==>
                FileBytes(dinodes[inum], blocks) == data
                && OthersIntact(old(dinodes), old(blocks), dinodes, blocks, inum)
      ensures ok ==> SameKind(dinodes[inum], old(dinodes)[inum])
      ensures ok ==> freeblock == old(freeblock) + Need(0, |data|)
      ensures ok <==> |data| <= MAXFILE * BSIZE && old(freeblock) + Need(0, |data|) <= |blocks|
    {
      hide Records;
      hide Padded;
      hide Shape;
      hide Disjoint;
      hide Reachable;
      hide FileBytes;
      hide ZeroFrom;
      hide Need;
      ghost var d0, b0 := dinodes, blocks;
      NeedNone(0);
      NeedSum(0, 0, |data|);
      var pos := 0;
      while pos < |data|
        invariant 0 <= pos <= |data| && Valid(nmeta) && |blocks| == |b0|
        invariant inum in dinodes && dinodes == d0[inum := dinodes[inum]]
                  && FileBytes(dinodes[inum], blocks) == data[..pos]
        invariant SameKind(dinodes[inum], d0[inum]) && dinodes[inum].size == pos <= MAXFILE * BSIZE
                  && freeblock == old(freeblock) + Need(0, pos)
        invariant OthersIntact(d0, b0, dinodes, blocks, inum)
      {
        var cc := if |data| - pos < BSIZE then |data| - pos else BSIZE;
        NeedSum(0, pos, pos + cc);
        NeedSum(0, pos + cc, |data|);
        ok := Iappend(inum, data[pos..pos + cc], nmeta);
        if !ok {
          return false;
        }
        assert data[..pos] + data[pos..pos + cc] == data[..pos + cc];
        pos := pos + cc;
      }
      assert data[..pos] == data;
      return true;
    }

    /* One file of the command line: an inode, an entry in the root directory, and its
       contents in pieces of at most a block. */
    method AddFile(name: seq<byte>, data: seq<byte>, ghost nmeta: nat) returns (ok: bool)
      requires Valid(nmeta) && 1 in dinodes && freeinode < 0x1_0000
      modifies this
      ensures |blocks| == |old(blocks)|
      ensures ok ==>
                Valid(nmeta) && freeinode == old(freeinode) + 1 && dinodes.Keys == old(dinodes.Keys) + {old(freeinode)}
      ensures ok ==>
                FileBytes(dinodes[1], blocks) == old(FileBytes(dinodes[1], blocks)) + EntryBytes(old(freeinode), name)
      ensures ok ==> FileBytes(dinodes[old(freeinode)], blocks) == data && Is(dinodes[old(freeinode)], T_FILE)
      ensures ok ==> forall j :: j in old(dinodes) ==> SameKind(dinodes[j], old(dinodes)[j])
      ensures ok ==>
                var root := old(dinodes[1].size); freeblock == old(freeblock) + Need(root, root + 16) + Need(0, |data|)
      ensures ok ==>
                forall j :: j in old(dinodes) && j != 1 ==>
                  FileBytes(dinodes[j], blocks) == old(FileBytes(dinodes[j], blocks))
      ensures var root := old(dinodes[1].size);
              ok <==> root + 16 <= MAXFILE * BSIZE && |data| <= MAXFILE * BSIZE &&
                      old(freeblock) + Need(root, root + 16) + Need(0, |data|) <= |blocks|
    {
      hide Records;
      hide Padded;
      hide Shape;
      hide Disjoint;
      hide Reachable;
      hide FileBytes;
      hide ZeroFrom;
      hide Need;
      NeedSum(0, 0, |data|);
      var inum := Ialloc(T_FILE, nmeta);
      ok := Iappend(1, EntryBytes(inum, name), nmeta);
      if !ok {
        return false;
      }
      ok := AppendContents(inum, data, nmeta);
    }
  }

  /* An inode of this type with one link. */
  predicate Is(d: Dinode, typ: short) {
    d.typ == typ && d.nlink == 1 && d.major == d.minor == 0
  }

  predicate SameKind(d: Dinode, e: Dinode) {
    d.typ == e.typ && d.nlink == e.nlink && d.major == e.major && d.minor == e.minor
  }

  function Empty(typ: short): Dinode {
    Dinode(typ, 0, 0, 1, 0, seq(NDIRECT + 1, i => 0))
  }

  lemma AddEmpty(dinodes: map<nat, Dinode>, blocks: seq<Block>, used: set<nat>, meta: set<nat>, inum: nat, typ: short)
    requires System(dinodes, blocks, used, meta) && inum !in dinodes && 0 < |blocks|
    ensures System(dinodes[inum := Empty(typ)], blocks, used, meta)
    ensures FileBytes(Empty(typ), blocks) == [] && Padded(Empty(typ), blocks)
  {
    var m, dinodes' := Table(Empty(typ).addrs, blocks), dinodes[inum := Empty(typ)];
    assert forall i :: 0 <= i < MAXFILE ==> m[i] == 0;
    assert OwnedBy(Empty(typ), blocks) == {};
    assert BlocksFor(0) == 0;
    forall b ensures Reachable(dinodes', blocks, b) <==> Reachable(dinodes, blocks, b) {
      if Reachable(dinodes, blocks, b) {
        var i :| i in dinodes && b in OwnedBy(dinodes[i], blocks);
        assert i in dinodes' && b in OwnedBy(dinodes'[i], blocks);
      }
    }
  }

  // ----- the bitmap

  lemma NoBits(n: nat, b: nat)
    requires b < 8 * n
    ensures !Bit(seq(n, i => 0), b)
  {
  }

  lemma BitsOfPrefix(buf: seq<bv8>, more: nat, b: nat)
    requires b < 8 * (|buf| + more)
    ensures Bit(buf + seq(more, i => 0), b) <==> b < 8 * |buf| && Bit(buf, b)
  {
    hide Test;
    if b >= 8 * |buf| {
      NoBits(more, b - 8 * |buf|);
    }
  }

  /* balloc of mkfs: one bitmap block with the first `used` bits set; the other bitmap
     blocks stay zero.  ok is false where its assertion stops mkfs. */
  method Bitmap(used: nat, nbitmap: nat) returns (bits: seq<bv8>, ok: bool)
    requires 0 < nbitmap
    ensures ok <==> used < 8 * BSIZE
    ensures |bits| == nbitmap * BSIZE
    ensures ok ==> forall n :: used <= n <= 8 * |bits| ==> UsedSet(bits, n) == Below(used)
  {
    hide Test;
    hide Or;
    hide Bit;
    bits := seq(nbitmap * BSIZE, i => 0);
    if used >= 8 * BSIZE {
      return bits, false;
    }
    var buf: seq<bv8> := seq(BSIZE, i => 0);
    forall b | 0 <= b < 8 * BSIZE ensures !Bit(buf, b) { NoBits(BSIZE, b); }
    for i := 0 to used
      invariant |buf| == BSIZE && forall b :: 0 <= b < 8 * BSIZE ==> (Bit(buf, b) <==> b < i)
    {
      forall b | 0 <= b < 8 * BSIZE ensures Bit(Marked(buf, i), b) <==> b < i + 1 { BitAfter(buf, i, b); }
      buf := Marked(buf, i);
    }
    var more := (nbitmap - 1) * BSIZE;
    bits := buf + seq(more, i => 0);
    forall b | 0 <= b < 8 * |bits| ensures Bit(bits, b) <==> b < used { BitsOfPrefix(buf, more, b); }
    return bits, true;
  }

  // ----- the size of the root directory

  function RoundedUp(size: nat): nat {
    (size / BSIZE + 1) * BSIZE
  }

  /* Rounding the size of an inode up leaves it without holes exactly when the size was not
     a multiple of the block size. */
  lemma RoundingHole(d: Dinode, blocks: seq<Block>)
    requires Shape(d, blocks)
    ensures Shape(d.(size := RoundedUp(d.size)), blocks) <==> d.size % BSIZE != 0
  {
    var m, k := Table(d.addrs, blocks), BlocksFor(d.size);
    if d.size % BSIZE != 0 {
      assert BlocksFor(RoundedUp(d.size)) == k;
    } else if k < MAXFILE {
      assert BlocksFor(RoundedUp(d.size)) == k + 1 && m[k] == 0;
    }
  }

  lemma RoundedBytes(d: Dinode, blocks: seq<Block>)
    requires Shape(d, blocks) && Padded(d, blocks) && d.size % BSIZE != 0
    ensures Shape(d.(size := RoundedUp(d.size)), blocks) && RoundedUp(d.size) % ENTRY == 0
            && d.size <= RoundedUp(d.size)
    ensures FileBytes(d.(size := RoundedUp(d.size)), blocks) == Pad(FileBytes(d, blocks), RoundedUp(d.size))
  {
    RoundingHole(d, blocks);
    assert RoundedUp(d.size) == BlocksFor(d.size) * BSIZE;
  }

  lemma Resized(dinodes: map<nat, Dinode>, blocks: seq<Block>, used: set<nat>, meta: set<nat>, i: nat, size: nat)
    requires System(dinodes, blocks, used, meta) && i in dinodes
    ensures System(dinodes[i := dinodes[i].(size := size)], blocks, used, meta) <==>
              Shape(dinodes[i].(size := size), blocks)
  {
    var d1 := dinodes[i := dinodes[i].(size := size)];
    if Shape(d1[i], blocks) {
      OneFile(dinodes, blocks, used, meta, i);
      Recount(dinodes, blocks, used, d1, blocks, used, meta, i);
    } else {
      assert d1[i] == dinodes[i].(size := size);
    }
  }

  // ----- the whole of mkfs

  datatype Source = Source(name: seq<byte>, data: seq<byte>)

  /* The entries of the root directory after the first n files. */
  function RootBytes(files: seq<Source>, n: nat): (r: seq<byte>)
    requires n <= |files| < 0xffff
    ensures |r| == 16 * (n + 2)
  {
    if n == 0 then EntryBytes(1, DOT) + EntryBytes(1, DOTDOT)
    else RootBytes(files, n - 1) + EntryBytes(n + 1, files[n - 1].name)
  }

  // ----- the root directory as a map

  function RootName(files: seq<Source>, k: nat): seq<byte>
    requires k < |files| + 2
  {
    if k == 0 then DOT else if k == 1 then DOTDOT else files[k - 2].name
  }

  function RootInum(k: nat): nat {
    if k < 2 then 1 else k
  }

  lemma {:induction false} RootSlot(files: seq<Source>, n: nat, k: nat)
    requires n <= |files| < 0xfffe && k < n + 2
    ensures RootBytes(files, n)[ENTRY * k..ENTRY * k + ENTRY] == EntryBytes(RootInum(k), RootName(files, k))
  {
    hide EntryBytes;
    if n > 0 && k < n + 1 {
      RootSlot(files, n - 1, k);
    }
  }

  /* Entry k of the root directory, rounded up to N bytes. */
  lemma RootEntry(files: seq<Source>, N: nat, k: nat)
    requires |files| < 0xfffe && N % ENTRY == 0 && ENTRY * (|files| + 2) <= N && k < N / ENTRY
    ensures var c := Pad(RootBytes(files, |files|), N);
            && |c| == N && Slots(c) == N / ENTRY && ENTRY * k + ENTRY <= |c|
            && (k < |files| + 2 ==> Inum(c, k) == RootInum(k) && EntryName(c, k) == Name(RootName(files, k)))
            && (k >= |files| + 2 ==> Inum(c, k) == 0)
  {
    var b, c := RootBytes(files, |files|), Pad(RootBytes(files, |files|), N);
    if k < |files| + 2 {
      hide EntryBytes;
      hide EntryName;
      RootSlot(files, |files|, k);
      assert c[ENTRY * k..ENTRY * k + ENTRY] == b[ENTRY * k..ENTRY * k + ENTRY];
      EntryOf(c, k);
      EntryBytesRead(RootInum(k), RootName(files, k));
    }
  }

  function RootNames(files: seq<Source>): (names: seq<seq<byte>>)
    ensures |names| == |files| + 2 && forall k :: 0 <= k < |names| ==> names[k] == Name(RootName(files, k))
  {
    seq(|files| + 2, k requires 0 <= k < |files| + 2 => Name(RootName(files, k)))
  }

  ghost predicate AllDiffer(names: seq<seq<byte>>) {
    forall j, k :: 0 <= j < k < |names| ==> names[j] != names[k]
  }

  /* No two names agree in their first 14 bytes, and none is "." or "..". */
  ghost predicate DistinctNames(files: seq<Source>) {
    AllDiffer(RootNames(files))
  }

  /* A directory whose entries carry these names is a map exactly when they differ. */
  lemma NamesMakeMap(c: seq<byte>, names: seq<seq<byte>>)
    requires |c| % ENTRY == 0 && forall k: nat, n :: Named(c, k, n) <==> k < |names| && n == names[k]
    ensures DirOk(c) <==> AllDiffer(names)
  {
    hide Named;
    if j, k :| 0 <= j < k < |names| && names[j] == names[k] {
      assert Named(c, j, names[j]) && Named(c, k, names[j]);
    } else {
      forall j: nat, k: nat, n | Named(c, j, n) && Named(c, k, n) ensures j == k {
        assert names[j] == names[k] && (j < k || k <= j);
      }
    }
  }

  lemma RootNamed(files: seq<Source>, N: nat, k: nat, n: seq<byte>)
    requires |files| < 0xfffe && N % ENTRY == 0 && ENTRY * (|files| + 2) <= N
    ensures var c := Pad(RootBytes(files, |files|), N);
            && |c| == N
            && (Named(c, k, n) <==> k < |files| + 2 && n == Name(RootName(files, k)))
            && (k < |files| + 2 ==> Has(c, Name(RootName(files, k)), RootInum(k)))
  {
    hide Pad;
    hide RootBytes;
    hide Inum;
    hide EntryName;
    hide Name;
    hide RootName;
    RootEntry(files, N, 0);
    if k < N / ENTRY {
      RootEntry(files, N, k);
      assert k < |files| + 2 ==> Named(Pad(RootBytes(files, |files|), N), k, Name(RootName(files, k)));
    }
  }

  /* The root directory is a map from names to inodes exactly when the names differ. */
  lemma RootIsMap(files: seq<Source>, N: nat)
    requires |files| < 0xfffe && N % ENTRY == 0 && ENTRY * (|files| + 2) <= N
    ensures var c := Pad(RootBytes(files, |files|), N);
            && (DirOk(c) <==> DistinctNames(files))
            && (forall k :: 0 <= k < |files| + 2 ==> Has(c, Name(RootName(files, k)), RootInum(k)))
  {
    hide Pad;
    hide RootBytes;
    hide Named;
    hide Has;
    hide Name;
    hide RootName;
    hide RootNames;
    hide AllDiffer;
    hide DirOk;
    var c := Pad(RootBytes(files, |files|), N);
    var names := RootNames(files);
    forall k: nat, n ensures |c| == N && (Named(c, k, n) <==> k < |names| && n == names[k]) {
      RootNamed(files, N, k, n);
    }
    RootNamed(files, N, 0, []);
    NamesMakeMap(c, names);
    forall k | 0 <= k < |files| + 2 ensures Has(c, Name(RootName(files, k)), RootInum(k)) {
      RootNamed(files, N, k, []);
    }
  }

  /* Inode 1 is a directory, and inodes 2, 3, ... hold the first n files. */
  ghost predicate Holds(dinodes: map<nat, Dinode>, blocks: seq<Block>, files: seq<Source>, n: nat)
    requires Shapes(dinodes, blocks) && n <= |files|
  {
    && 1 in dinodes && Is(dinodes[1], T_DIR)
    && forall i :: 2 <= i < n + 2 ==>
         i in dinodes && Is(dinodes[i], T_FILE) && FileBytes(dinodes[i], blocks) == files[i - 2].data
  }

  lemma HoldsNone(dinodes: map<nat, Dinode>, blocks: seq<Block>, files: seq<Source>)
    requires Shapes(dinodes, blocks) && 1 in dinodes && Is(dinodes[1], T_DIR)
    ensures Holds(dinodes, blocks, files, 0)
  {
  }

  lemma HoldsMore(d0: map<nat, Dinode>, b0: seq<Block>, d1: map<nat, Dinode>, b1: seq<Block>, files: seq<Source>,
                  n: nat)
    requires Shapes(d0, b0) && Shapes(d1, b1) && n < |files| && Holds(d0, b0, files, n)
    requires d0.Keys + {n + 2} == d1.Keys && n + 2 !in d0
    requires Is(d1[n + 2], T_FILE) && FileBytes(d1[n + 2], b1) == files[n].data
    requires forall j :: j in d0 ==> SameKind(d1[j], d0[j])
    requires forall j :: j in d0 && j != 1 ==> FileBytes(d1[j], b1) == FileBytes(d0[j], b0)
    ensures Holds(d1, b1, files, n + 1)
  {
    hide Shape;
    hide FileBytes;
  }

  /* The blocks that the root directory and the first n files take. */
  function BlocksNeeded(files: seq<Source>, n: nat): int
    requires n <= |files|
  {
    if n == 0 then Need(0, 16) + Need(16, 32)
    else BlocksNeeded(files, n - 1) + Need(16 * (n + 1), 16 * (n + 2)) + Need(0, |files[n - 1].data|)
  }

  lemma {:induction false} NeededMonotone(files: seq<Source>, i: nat, n: nat)
    requires i <= n <= |files|
    ensures BlocksNeeded(files, i) <= BlocksNeeded(files, n)
    decreases n
  {
    if i < n {
      NeededMonotone(files, i, n - 1);
      NeedSum(0, 0, |files[n - 1].data|);
      NeedSum(0, 16 * (n + 1), 16 * (n + 2));
    }
  }

  /* No file is too long, and neither is the root directory. */
  predicate Small(files: seq<Source>, n: nat)
    requires n <= |files|
  {
    16 * (n + 2) <= MAXFILE * BSIZE && forall i :: 0 <= i < n ==> |files[i].data| <= MAXFILE * BSIZE
  }

  /* The root inode with its two first entries. */
  method MakeRoot(im: Image, ghost nmeta: nat) returns (ok: bool)
    requires im.Valid(nmeta) && im.dinodes == map[] && im.freeinode == 1
    modifies im
    ensures |im.blocks| == |old(im.blocks)|
    ensures ok ==>
              im.Valid(nmeta) && im.freeinode == 2 && 1 in im.dinodes && im.dinodes[1].size == 32
              && Is(im.dinodes[1], T_DIR)
    ensures ok ==> FileBytes(im.dinodes[1], im.blocks) == EntryBytes(1, DOT) + EntryBytes(1, DOTDOT)
    ensures ok ==> im.freeblock == old(im.freeblock) + Need(0, 16) + Need(16, 32)
    ensures ok <==> old(im.freeblock) + Need(0, 16) + Need(16, 32) <= |im.blocks|
  {
    hide Image.Records;
    hide Padded;
    hide Shape;
    hide Disjoint;
    hide Reachable;
    hide FileBytes;
    hide ZeroFrom;
    hide Need;
    hide EntryBytes;
    NeedSum(0, 16, 32);
    var root := im.Ialloc(T_DIR, nmeta);
    ok := im.Iappend(root, EntryBytes(root, DOT), nmeta);
    if !ok {
      return false;
    }
    ok := im.Iappend(root, EntryBytes(root, DOTDOT), nmeta);
    assert [] + EntryBytes(1, DOT) + EntryBytes(1, DOTDOT) == EntryBytes(1, DOT) + EntryBytes(1, DOTDOT);
  }

  lemma SizeIsLength(d: Dinode, blocks: seq<Block>)
    requires Shape(d, blocks)
    ensures |FileBytes(d, blocks)| == d.size
  {
  }

  /* mkfs up to the last file. */
  method Populate(im: Image, files: seq<Source>, ghost nmeta: nat) returns (ok: bool)
    requires im.Valid(nmeta) && im.dinodes == map[] && im.freeinode == 1 && |files| < 0xfffe
    modifies im
    ensures |im.blocks| == |old(im.blocks)|
    ensures ok ==>
              im.Valid(nmeta) && 1 in im.dinodes && FileBytes(im.dinodes[1], im.blocks) == RootBytes(files, |files|)
    ensures ok ==> Holds(im.dinodes, im.blocks, files, |files|) && im.freeinode == |files| + 2
    ensures ok ==> im.freeblock == old(im.freeblock) + BlocksNeeded(files, |files|)
    ensures ok <==> Small(files, |files|) && old(im.freeblock) + BlocksNeeded(files, |files|) <= |im.blocks|
  {
    hide Image.Records;
    hide AllPadded;
    hide Below;
    hide BlocksFor;
    hide Holds;
    hide Is;
    hide SameKind;
    hide Padded;
    hide Shape;
    hide Disjoint;
    hide Reachable;
    hide FileBytes;
    hide ZeroFrom;
    hide Need;
    hide EntryBytes;
    NeededMonotone(files, 0, |files|);
    ok := MakeRoot(im, nmeta);
    if !ok {
      return false;
    }
    HoldsNone(im.dinodes, im.blocks, files);
    for i := 0 to |files|
      invariant im.Valid(nmeta) && 1 in im.dinodes && FileBytes(im.dinodes[1], im.blocks) == RootBytes(files, i)
      invariant im.freeinode == i + 2 && |im.blocks| == |old(im.blocks)|
      invariant Holds(im.dinodes, im.blocks, files, i)
      invariant Small(files, i) && im.freeblock == old(im.freeblock) + BlocksNeeded(files, i)
    {
      SizeIsLength(im.dinodes[1], im.blocks);
      NeededMonotone(files, i + 1, |files|);
      ghost var d0, b0 := im.dinodes, im.blocks;
      ok := im.AddFile(files[i].name, files[i].data, nmeta);
      if !ok {
        return false;
      }
      HoldsMore(d0, b0, im.dinodes, im.blocks, files, i);
    }
    return true;
  }

  /* Boot block, superblock, log, inode blocks and bitmap. */
  function Nmeta(nlog: nat, niblocks: nat, nbitmap: nat): nat {
    2 + nlog + niblocks + nbitmap
  }

  /* All of mkfs.  What it builds satisfies the invariant of the whole file system exactly
     when the length of the root directory was not a multiple of the block size. */
  method Make(size: nat, nlog: nat, niblocks: nat, nbitmap: nat, files: seq<Source>)
    returns (im: Image, bits: seq<bv8>, ok: bool)
    requires Nmeta(nlog, niblocks, nbitmap) <= size < 0x1_0000_0000 && 0 < nbitmap && size <= 8 * nbitmap * BSIZE
    requires |files| < 0xfffe
    ensures ok <==>
              var used := Nmeta(nlog, niblocks, nbitmap) + BlocksNeeded(files, |files|);
              Small(files, |files|) && used <= size && used < 8 * BSIZE
    ensures ok ==>
              |im.blocks| == size <= 8 * |bits| && 1 in im.dinodes
              && im.dinodes[1].size == RoundedUp(16 * (|files| + 2))
    ensures ok ==> im.niblocks == niblocks && im.Records() && forall i :: i in im.dinodes <==> 0 < i < |files| + 2
    ensures ok ==>
              (System(im.dinodes, im.blocks, UsedSet(bits, size), Below(Nmeta(nlog, niblocks, nbitmap))) <==>
               16 * (|files| + 2) % BSIZE != 0)
    ensures ok ==> 16 * (|files| + 2) % BSIZE != 0 ==>
              && Shapes(im.dinodes, im.blocks) && Holds(im.dinodes, im.blocks, files, |files|)
              && var root := FileBytes(im.dinodes[1], im.blocks);
              && root == Pad(RootBytes(files, |files|), RoundedUp(16 * (|files| + 2)))
              && (DirOk(root) <==> DistinctNames(files))
  {
    hide Padded;
    hide Pad;
    hide RootBytes;
    hide DirOk;
    hide DistinctNames;
    hide FileBytes;
    hide ZeroFrom;
    hide Shape;
    hide Disjoint;
    hide Reachable;
    hide UsedSet;
    hide Image.Records;
    var nmeta := Nmeta(nlog, niblocks, nbitmap);
    im := new Image(size, nmeta, niblocks);
    bits := [];
    ok := Populate(im, files, nmeta);
    if !ok {
      return im, bits, false;
    }
    var d := im.Rinode(1);
    SizeIsLength(d, im.blocks);
    RoundingHole(d, im.blocks);
    Fits(d, im.blocks);
    Resized(im.dinodes, im.blocks, Below(im.freeblock), Below(nmeta), 1, RoundedUp(d.size));
    im.Winode(1, d.(size := RoundedUp(d.size)));
    if 16 * (|files| + 2) % BSIZE != 0 {
      RoundedBytes(d, im.blocks);
      RootIsMap(files, RoundedUp(d.size));
    }
    bits, ok := Bitmap(im.freeblock, nbitmap);
  }
}
