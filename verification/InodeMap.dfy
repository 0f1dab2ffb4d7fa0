/**
How an inode lies in its inode block and maps file offsets to disk blocks (fs.c, fs.h):
twelve direct block numbers and one indirect block holding 128 more.  `Table` reads that
structure as a table of 140 block numbers, 0 for none; everything proved about files is
stated on the table.
*/
module InodeMap {

  const BSIZE: nat := 512
  const NDIRECT: nat := 12
  const NINDIRECT: nat := 128
  const MAXFILE: nat := 140

  type byte = x: int | 0 <= x < 256
  type Block = b: seq<byte> | |b| == BSIZE witness seq(BSIZE, i => 0)

  function ZeroBlock(): Block {
    seq(BSIZE, i => 0)
  }

  // ----- a block as an array of 32-bit block numbers, least significant byte first

  function Entry(b: Block, i: nat): (v: nat)
    requires i < NINDIRECT
  {
    var b0: int, b1: int, b2: int, b3: int := b[4 * i], b[4 * i + 1], b[4 * i + 2], b[4 * i + 3];
    b0 + 0x100 * b1 + 0x1_0000 * b2 + 0x100_0000 * b3
  }

  function SetEntry(b: Block, i: nat, v: nat): (r: Block)
    requires i < NINDIRECT && v < 0x1_0000_0000
  {
    b[4 * i := v % 0x100][4 * i + 1 := v / 0x100 % 0x100]
     [4 * i + 2 := v / 0x1_0000 % 0x100][4 * i + 3 := v / 0x100_0000]
  }

  lemma EntryAfterSet(b: Block, i: nat, v: nat, j: nat)
    requires i < NINDIRECT && j < NINDIRECT && v < 0x1_0000_0000
    ensures Entry(SetEntry(b, i, v), j) == if j == i then v else Entry(b, j)
  {
    if j == i {
      FourBytes(v);
    }
  }

  lemma FourBytes(v: nat)
    requires v < 0x1_0000_0000
    ensures v / 0x100_0000 < 0x100
    ensures v == v % 0x100 + 0x100 * (v / 0x100 % 0x100) + 0x1_0000 * (v / 0x1_0000 % 0x100) +
              0x100_0000 * (v / 0x100_0000)
  {
    assert v / 0x1_0000 == v / 0x100 / 0x100;
    assert v / 0x100_0000 == v / 0x1_0000 / 0x100;
  }

  lemma EntryOfZero(i: nat)
    requires i < NINDIRECT
    ensures Entry(ZeroBlock(), i) == 0
  {
  }

  // ----- an inode in its block

  type short = x: int | 0 <= x < 0x1_0000

  datatype Dinode = Dinode(typ: short, major: short, minor: short, nlink: short, size: nat, addrs: seq<nat>)

  const T_DIR: short := 1
  const T_FILE: short := 2

  /* Inodes per block, and 32-bit words per inode. */
  const IPB: nat := 8
  const IWORDS: nat := 16

  predicate Storable(d: Dinode) {
    && d.size < 0x1_0000_0000 && |d.addrs| == NDIRECT + 1
    && forall i :: 0 <= i < |d.addrs| ==> d.addrs[i] < 0x1_0000_0000
  }

  /* The words of struct dinode. */
  function Words(d: Dinode): (ws: seq<nat>)
    requires Storable(d)
    ensures |ws| == IWORDS && forall i :: 0 <= i < |ws| ==> ws[i] < 0x1_0000_0000
  {
    [d.typ + 0x1_0000 * d.major, d.minor + 0x1_0000 * d.nlink, d.size] + d.addrs
  }

  /* Word i of the k-th inode of a block. */
  function Word(b: Block, k: nat, i: nat): nat
    requires k < IPB && i < IWORDS
  {
    Entry(b, IWORDS * k + i)
  }

  /* The k-th inode of a block. */
  function GetInode(b: Block, k: nat): Dinode
    requires k < IPB
  {
    var w, v := Word(b, k, 0), Word(b, k, 1);
    Dinode(w % 0x1_0000, w / 0x1_0000 % 0x1_0000, v % 0x1_0000, v / 0x1_0000 % 0x1_0000, Word(b, k, 2),
           seq<nat>(NDIRECT + 1, i requires 0 <= i < NDIRECT + 1 => Word(b, k, 3 + i)))
  }

  /* The first words of inode k are ws, and every other word of the block is as it was. */
  ghost predicate HoldsWords(was: Block, b: Block, k: nat, ws: seq<nat>)
    requires k < IPB && |ws| <= IWORDS
  {
    forall j: nat, i: nat :: j < IPB && i < IWORDS ==>
      Word(b, j, i) == if j == k && i < |ws| then ws[i] else Word(was, j, i)
  }

  /* A block that holds the words of d reads back as d there, and as before elsewhere. */
  lemma InodeStored(was: Block, b: Block, k: nat, d: Dinode, j: nat)
    requires k < IPB && j < IPB && Storable(d) && HoldsWords(was, b, k, Words(d))
    ensures GetInode(b, j) == if j == k then d else GetInode(was, j)
  {
    hide Word;
    var ws, g, h := Words(d), GetInode(b, j), GetInode(was, j);
    forall i | 0 <= i < NDIRECT + 1 ensures g.addrs[i] == if j == k then d.addrs[i] else h.addrs[i] {
      assert ws[3 + i] == d.addrs[i];
    }
  }

  lemma NoWords(block: Block, k: nat)
    requires k < IPB
    ensures HoldsWords(block, block, k, [])
  {
  }

  /* Copying a whole inode into its block. */
  method CopyInode(block: Block, k: nat, d: Dinode) returns (data: Block)
    requires k < IPB && Storable(d)
    ensures HoldsWords(block, data, k, Words(d))
  {
    hide SetEntry;
    hide HoldsWords;
    var ws := Words(d);
    NoWords(block, k);
    data := block;
    for i := 0 to IWORDS
      invariant HoldsWords(block, data, k, ws[..i])
    {
      NextWord(block, data, k, ws[..i], ws[i]);
      data := SetEntry(data, IWORDS * k + i, ws[i]);
      assert ws[..i] + [ws[i]] == ws[..i + 1];
    }
    assert ws[..IWORDS] == ws;
  }

  /* One more word. */
  lemma NextWord(was: Block, b: Block, k: nat, ws: seq<nat>, w: nat)
    requires k < IPB && |ws| < IWORDS && HoldsWords(was, b, k, ws) && w < 0x1_0000_0000
    ensures HoldsWords(was, SetEntry(b, IWORDS * k + |ws|, w), k, ws + [w])
  {
    hide Entry;
    hide SetEntry;
    var b' := SetEntry(b, IWORDS * k + |ws|, w);
    forall j: nat, i: nat | j < IPB && i < IWORDS
      ensures Word(b', j, i) == if j == k && i == |ws| then w else Word(b, j, i)
    {
      EntryAfterSet(b, IWORDS * k + |ws|, w, IWORDS * j + i);
    }
  }

  // ----- the table

  predicate AddrsOk(addrs: seq<nat>, nblocks: nat) {
    |addrs| == NDIRECT + 1 && forall i :: 0 <= i < |addrs| ==> addrs[i] < nblocks
  }

  /* The disk block of file block bn, 0 if there is none. */
  function BlockAt(addrs: seq<nat>, blocks: seq<Block>, bn: nat): nat
    requires AddrsOk(addrs, |blocks|) && bn < MAXFILE
  {
    if bn < NDIRECT then addrs[bn]
    else if addrs[NDIRECT] == 0 then 0
    else Entry(blocks[addrs[NDIRECT]], bn - NDIRECT)
  }

  function Table(addrs: seq<nat>, blocks: seq<Block>): (m: seq<nat>)
    requires AddrsOk(addrs, |blocks|)
    ensures |m| == MAXFILE
    ensures forall bn :: 0 <= bn < MAXFILE ==> m[bn] == BlockAt(addrs, blocks, bn)
  {
    seq(MAXFILE, bn requires 0 <= bn < MAXFILE => BlockAt(addrs, blocks, bn))
  }

  /* Changing a block other than the indirect one leaves the table alone. */
  lemma MapFrame(addrs: seq<nat>, blocks: seq<Block>, b: nat, data: Block)
    requires AddrsOk(addrs, |blocks|) && b < |blocks| && (addrs[NDIRECT] != 0 ==> b != addrs[NDIRECT])
    ensures Table(addrs, blocks[b := data]) == Table(addrs, blocks)
  {
  }

  lemma MapSetDirect(addrs: seq<nat>, blocks: seq<Block>, bn: nat, b: nat)
    requires AddrsOk(addrs, |blocks|) && bn < NDIRECT && b < |blocks|
    ensures AddrsOk(addrs[bn := b], |blocks|)
    ensures Table(addrs[bn := b], blocks) == Table(addrs, blocks)[bn := b]
  {
  }

  /* A fresh, zeroed indirect block maps nothing. */
  lemma MapSetIndirect(addrs: seq<nat>, blocks: seq<Block>, b: nat)
    requires AddrsOk(addrs, |blocks|) && addrs[NDIRECT] == 0 && b < |blocks| && blocks[b] == ZeroBlock()
    ensures AddrsOk(addrs[NDIRECT := b], |blocks|)
    ensures Table(addrs[NDIRECT := b], blocks) == Table(addrs, blocks)
  {
    var m, m' := Table(addrs, blocks), Table(addrs[NDIRECT := b], blocks);
    forall bn | 0 <= bn < MAXFILE ensures m'[bn] == m[bn] {
      if bn >= NDIRECT { EntryOfZero(bn - NDIRECT); }
    }
  }

  lemma MapSetEntry(addrs: seq<nat>, blocks: seq<Block>, bn: nat, v: nat)
    requires AddrsOk(addrs, |blocks|) && NDIRECT <= bn < MAXFILE && addrs[NDIRECT] != 0 && v < 0x1_0000_0000
    ensures var ind := addrs[NDIRECT];
            Table(addrs, blocks[ind := SetEntry(blocks[ind], bn - NDIRECT, v)]) == Table(addrs, blocks)[bn := v]
  {
    var ind := addrs[NDIRECT];
    var blocks' := blocks[ind := SetEntry(blocks[ind], bn - NDIRECT, v)];
    var m, m' := Table(addrs, blocks), Table(addrs, blocks');
    forall k | 0 <= k < MAXFILE ensures m'[k] == m[bn := v][k] {
      if k >= NDIRECT { EntryAfterSet(blocks[ind], bn - NDIRECT, v, k - NDIRECT); }
    }
  }

  ghost predicate InRange(m: seq<nat>, n: nat) {
    |m| == MAXFILE && forall i :: 0 <= i < |m| ==> m[i] < n
  }

  // ----- which blocks a file owns

  /* Distinct file blocks lie in distinct disk blocks, none of them the indirect block. */
  ghost predicate Injective(m: seq<nat>, ind: nat) {
    && (forall i, j :: 0 <= i < j < |m| && m[i] != 0 ==> m[i] != m[j])
    && (forall i :: 0 <= i < |m| && m[i] != 0 ==> m[i] != ind)
  }

  function Owned(m: seq<nat>, ind: nat): (r: set<nat>)
    ensures forall i :: 0 <= i < |m| && m[i] != 0 ==> m[i] in r
    ensures ind != 0 ==> ind in r
    ensures 0 !in r
  {
    (set i | 0 <= i < |m| && m[i] != 0 :: m[i]) + (if ind == 0 then {} else {ind})
  }

  /* The bitmap records exactly the blocks of this file and those owned elsewhere
     (metadata and other files), and no block has two owners. */
  ghost predicate Ownership(m: seq<nat>, ind: nat, used: set<nat>, others: set<nat>) {
    Injective(m, ind) && Owned(m, ind) !! others && used == Owned(m, ind) + others && 0 in others
  }

  lemma OwnMapped(m: seq<nat>, ind: nat, used: set<nat>, others: set<nat>, bn: nat, b: nat)
    requires Ownership(m, ind, used, others) && bn < |m| && m[bn] == 0 && b !in used && b != 0
    ensures Owned(m[bn := b], ind) == Owned(m, ind) + {b}
    ensures Ownership(m[bn := b], ind, used + {b}, others)
  {
    var m' := m[bn := b];
    assert m'[bn] == b;
    forall i | 0 <= i < |m| && m[i] != 0 ensures m[i] in Owned(m', ind) {
      assert m'[i] == m[i];
    }
    assert Owned(m', ind) == Owned(m, ind) + {b};
  }

  lemma OwnIndirect(m: seq<nat>, used: set<nat>, others: set<nat>, b: nat)
    requires Ownership(m, 0, used, others) && b !in used && b != 0
    ensures Owned(m, b) == Owned(m, 0) + {b}
    ensures Ownership(m, b, used + {b}, others)
  {
  }

  // ----- no holes

  /* The first k file blocks are mapped and no other, and there is an indirect block
     exactly when it is needed. */
  ghost predicate Mapped(m: seq<nat>, ind: nat, k: nat) {
    && (forall i :: 0 <= i < |m| ==> (m[i] != 0 <==> i < k))
    && (ind != 0 <==> k > NDIRECT)
  }

  function BlocksFor(size: nat): nat {
    (size + BSIZE - 1) / BSIZE
  }

  /* How many blocks it takes to map file blocks k, ..., k' - 1: those and the indirect block
     if they are the first to need it. */
  function NewBlocks(k: nat, k': nat): int {
    k' - k + (if k <= NDIRECT < k' then 1 else 0)
  }

  /* How many blocks a file takes to grow from size a to size b. */
  function Need(a: nat, b: nat): int {
    NewBlocks(BlocksFor(a), BlocksFor(b))
  }

  lemma NeedSum(a: nat, b: nat, c: nat)
    requires a <= b <= c
    ensures Need(a, b) + Need(b, c) == Need(a, c) && Need(b, c) >= 0
  {
  }

  lemma NeedNone(a: nat)
    ensures Need(a, a) == 0
  {
  }

  // ----- contents

  /* The first n bytes of a file. */
  function Bytes(m: seq<nat>, blocks: seq<Block>, n: nat): (r: seq<byte>)
    requires |m| == MAXFILE && n <= MAXFILE * BSIZE
    requires forall i :: 0 <= i < |m| ==> m[i] < |blocks|
    ensures |r| == n
    ensures forall i :: 0 <= i < n ==> r[i] == blocks[m[i / BSIZE]][i % BSIZE]
  {
    seq(n, i requires 0 <= i < n => blocks[m[i / BSIZE]][i % BSIZE])
  }

  /* The contents after writing src at off: old bytes replaced, or the file extended. */
  function Splice(was: seq<byte>, off: nat, src: seq<byte>): (r: seq<byte>)
    requires off <= |was|
    ensures |r| == if off + |src| > |was| then off + |src| else |was|
  {
    was[..off] + src + (if off + |src| < |was| then was[off + |src|..] else [])
  }

  /* A read of what was written gives it back, and every other byte is as it was. */
  lemma SpliceAt(was: seq<byte>, off: nat, src: seq<byte>, i: nat)
    requires off <= |was| && i < |Splice(was, off, src)|
    ensures Splice(was, off, src)[off..off + |src|] == src
    ensures if off <= i < off + |src| then Splice(was, off, src)[i] == src[i - off]
            else i < |was| && Splice(was, off, src)[i] == was[i]
  {
    var tail := if off + |src| < |was| then was[off + |src|..] else [];
    assert Splice(was, off, src) == was[..off] + src + tail;
  }
}
