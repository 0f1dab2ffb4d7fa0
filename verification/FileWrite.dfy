/**
filewrite of file.c: a write is cut into transactions of at most 1536 bytes, and every
one of them hands at most MAXOPBLOCKS blocks to the log, however many bitmap blocks the
disk has.
*/
module FileWrite {
  import opened InodeMap
  import opened FileSystem
  import opened FileIo

  const MAXOPBLOCKS: nat := 10
  const CHUNK: nat := (MAXOPBLOCKS - 1 - 1 - 2) / 2 * 512

  // ----- counting

  lemma {:induction false} DataCount(m: seq<nat>, lo: nat, hi: nat)
    requires lo <= hi <= |m|
    ensures |DataBlocks(m, lo, hi)| <= hi - lo
    ensures (forall i, j :: lo <= i < j < hi ==> m[i] != m[j]) ==> |DataBlocks(m, lo, hi)| == hi - lo
    decreases hi
  {
    if lo == hi {
      assert DataBlocks(m, lo, hi) == {};
    } else {
      DataCount(m, lo, hi - 1);
      assert DataBlocks(m, lo, hi) == DataBlocks(m, lo, hi - 1) + {m[hi - 1]};
    }
  }

  lemma {:induction false} BitmapCount(fs: Fs, bs: set<nat>)
    ensures |fs.BBlocks(bs)| <= |bs|
    decreases |bs|
  {
    if bs == {} {
      assert fs.BBlocks(bs) == {};
    } else {
      var b :| b in bs;
      BitmapCount(fs, bs - {b});
      assert fs.BBlocks(bs) == fs.BBlocks(bs - {b}) + {fs.BBlock(b)};
    }
  }

  lemma UnionCount(a: set<nat>, b: set<nat>)
    ensures |a + b| <= |a| + |b|
    ensures a !! b ==> |a + b| == |a| + |b|
  {
    assert a + b == a + (b - a);
    assert |b - a| <= |b| by { assert (b - a) + (b * a) == b; }
  }

  /* Blocks touched, blocks allocated: how a chunk meets the block boundaries. */
  lemma Shares(off: nat, n: nat, size: nat)
    requires off <= size && n <= CHUNK
    ensures var k, k' := BlocksFor(size), BlocksFor(Max(size, off + n));
            var touched := LastTouched(off, n) - off / BSIZE;
            && 0 <= touched <= 4 && k' - k <= 3
            && (off % BSIZE == 0 ==> touched <= 3)
            && (k' - k == 3 && off % BSIZE != 0 ==> touched == 4)
            && (k' > k ==> size < Max(size, off + n))
            && (touched == 4 ==> off % BSIZE != 0) && (touched > 0 ==> LastTouched(off, n) <= k')
  {
  }

  ghost predicate WriteGrew(m: seq<nat>, ind: nat, used: set<nat>, m': seq<nat>, ind': nat, used': set<nat>,
                            off: nat, n: nat, size: nat, size': nat) {
    && off <= size && n <= CHUNK && size' == Max(size, off + n)
    && Grown(m, ind, used, m', ind', used', BlocksFor(size), BlocksFor(size'))
    && LastTouched(off, n) <= MAXFILE
  }

  /* One chunk of filewrite never logs more than MAXOPBLOCKS distinct blocks. */
  lemma TransactionBound(fs: Fs, m: seq<nat>, ind: nat, used: set<nat>, m': seq<nat>, ind': nat, used': set<nat>,
                         inum: nat, off: nat, n: nat, size: nat, size': nat)
    requires WriteGrew(m, ind, used, m', ind', used', off, n, size, size')
    ensures |WriteSet(fs, m', ind', used' - used, inum, off, n, size, size')| <= MAXOPBLOCKS
  {
    var lo, hi, k, k' := off / BSIZE, LastTouched(off, n), BlocksFor(size), BlocksFor(size');
    var data, bitmap := DataBlocks(m', lo, hi), fs.BBlocks(used' - used);
    var over := Overhead(fs, ind', used' - used, k, k');
    Shares(off, n, size);
    DataCount(m', lo, hi);
    BitmapCount(fs, used' - used);
    UnionCount(bitmap, if k < k' && NDIRECT < k' then {ind'} else {});
    UnionCount(data, over);
    UnionCount(data + over, if size < size' then {fs.IBlock(inum)} else {});
  }

  /* The blocks of the bitmap and of the inode are nobody's data and are different. */
  ghost predicate Layout(fs: Fs, added: set<nat>, inum: nat, others: set<nat>) {
    && fs.BBlocks(added) + {fs.IBlock(inum)} <= others
    && fs.IBlock(inum) !in fs.BBlocks(added)
  }

  lemma DataDistinct(m: seq<nat>, ind: nat, used: set<nat>, others: set<nat>, lo: nat, hi: nat, k: nat)
    requires Ownership(m, ind, used, others) && Mapped(m, ind, k) && lo <= hi <= |m| && hi <= k
    ensures |DataBlocks(m, lo, hi)| == hi - lo
    ensures DataBlocks(m, lo, hi) !! others && ind !in DataBlocks(m, lo, hi) && (ind != 0 ==> ind !in others)
  {
    assert forall j :: lo <= j < hi ==> m[j] != 0 && m[j] in Owned(m, ind) && m[j] != ind;
    DataCount(m, lo, hi);
  }

  /* Exactly how many blocks a chunk logs. */
  lemma TransactionCount(fs: Fs, m: seq<nat>, ind: nat, used: set<nat>, m': seq<nat>, ind': nat, used': set<nat>,
                         others: set<nat>, inum: nat, off: nat, n: nat, size: nat, size': nat)
    requires WriteGrew(m, ind, used, m', ind', used', off, n, size, size')
    requires Ownership(m', ind', used', others) && Mapped(m', ind', BlocksFor(size'))
    requires Layout(fs, used' - used, inum, others)
    ensures var k, k' := BlocksFor(size), BlocksFor(size');
            |WriteSet(fs, m', ind', used' - used, inum, off, n, size, size')| ==
            LastTouched(off, n) - off / BSIZE + |fs.BBlocks(used' - used)| +
            (if k < k' && NDIRECT < k' then 1 else 0) + (if size < size' then 1 else 0)
  {
    hide Ownership;
    hide Fs.BBlocks;
    hide DataBlocks;
    var lo, hi, k, k' := off / BSIZE, LastTouched(off, n), BlocksFor(size), BlocksFor(size');
    var data, bitmap := DataBlocks(m', lo, hi), fs.BBlocks(used' - used);
    var i := if k < k' && NDIRECT < k' then {ind'} else {};
    var over := Overhead(fs, ind', used' - used, k, k');
    Shares(off, n, size);
    DataDistinct(m', ind', used', others, lo, hi, k');
    assert bitmap <= others;
    UnionCount(bitmap, i);
    UnionCount(data, over);
    UnionCount(data + over, if size < size' then {fs.IBlock(inum)} else {});
  }

  /* The budget is used up exactly by an unaligned chunk that allocates three data blocks
     and the indirect block, all four under different bitmap blocks. */
  lemma TransactionTight(fs: Fs, m: seq<nat>, ind: nat, used: set<nat>, m': seq<nat>, ind': nat, used': set<nat>,
                         others: set<nat>, inum: nat, off: nat, n: nat, size: nat, size': nat)
    requires WriteGrew(m, ind, used, m', ind', used', off, n, size, size')
    requires Ownership(m', ind', used', others) && Mapped(m', ind', BlocksFor(size'))
    requires Layout(fs, used' - used, inum, others)
    ensures var k, k' := BlocksFor(size), BlocksFor(size');
            |WriteSet(fs, m', ind', used' - used, inum, off, n, size, size')| == MAXOPBLOCKS <==>
            off % BSIZE != 0 && k' == k + 3 && k <= NDIRECT < k' && |fs.BBlocks(used' - used)| == 4
  {
    hide WriteSet;
    TransactionCount(fs, m, ind, used, m', ind', used', others, inum, off, n, size, size');
    Shares(off, n, size);
    BitmapCount(fs, used' - used);
  }

  // ----- a chunk that uses the whole budget

  /* Four blocks under four different bitmap blocks. */
  ghost function TightNew(): set<nat> {
    {5000, 9000, 13000, 17000}
  }

  lemma FourBitmaps(fs: Fs)
    ensures fs.BBlocks(TightNew()) == {fs.bmapstart + 1, fs.bmapstart + 2, fs.bmapstart + 3, fs.bmapstart + 4}
    ensures |fs.BBlocks(TightNew())| == 4 && |TightNew()| == 4
  {
    assert fs.BBlock(5000) == fs.bmapstart + 1 && fs.BBlock(9000) == fs.bmapstart + 2;
    assert fs.BBlock(13000) == fs.bmapstart + 3 && fs.BBlock(17000) == fs.bmapstart + 4;
    var bs := TightNew();
    assert 5000 in bs && 9000 in bs && 13000 in bs && 17000 in bs;
    var four := {fs.bmapstart + 1, fs.bmapstart + 2, fs.bmapstart + 3, fs.bmapstart + 4};
    forall x ensures x in fs.BBlocks(bs) <==> x in four {
    }
  }

  lemma TightSizes()
    ensures Need(4609, 6145) == 4 && BlocksFor(4609) == 10 && BlocksFor(6145) == 13
    ensures LastTouched(4609, CHUNK) <= MAXFILE
  {
  }

  /* What was free is what the write took. */
  lemma TookAll(fs: Fs, m: seq<nat>, ind: nat, used: set<nat>, m': seq<nat>, ind': nat, free: set<nat>)
    requires fs.Valid() && (forall b :: b in free <==> 0 <= b < fs.nblocks && b !in used) && |free| == 4
    requires Grown(m, ind, used, m', ind', fs.Used(), 10, 13)
    ensures fs.Used() - used == free
  {
    var took := fs.Used() - used;
    assert took <= free;
    assert free == took + (free - took);
  }

  /* The bound is reached by the code: with exactly these four blocks free, 1536 bytes at the
     odd end of a file of ten blocks log ten blocks. */
  method TightWrite(fs: Fs, ip: Inode, chunk: seq<byte>, ghost others: set<nat>) returns (r: int, ok: bool)
    requires InodeOk(fs, ip, others) && ip.size == 4609 && |chunk| == CHUNK && fs.logged == {}
    requires fs.Free() == TightNew() && Layout(fs, TightNew(), ip.inum, others)
    modifies fs`bits, fs`blocks, fs`logged, fs`itable, fs`dinodes, ip`addrs, ip`size
    ensures ok && r == CHUNK && |fs.logged| == MAXOPBLOCKS
  {
    hide UsedSet;
    hide Ownership;
    hide Mapped;
    hide Grown;
    hide WriteSet;
    hide Splice;
    hide Kept;
    hide OnlyInode;
    hide Layout;
    hide TightNew;
    hide Need;
    hide BlocksFor;
    hide LastTouched;
    hide Fs.BBlocks;
    ghost var m, ind, used, free := fs.Map(ip), ip.addrs[NDIRECT], fs.Used(), fs.Free();
    FourBitmaps(fs);
    TightSizes();
    r, ok := Writei(fs, ip, chunk, 4609, others);
    assert ip.size == |Content(fs, ip, others)| == 6145;
    TookAll(fs, m, ind, used, fs.Map(ip), ip.addrs[NDIRECT], free);
    TransactionTight(fs, m, ind, used, fs.Map(ip), ip.addrs[NDIRECT], fs.Used(), others, ip.inum, 4609, CHUNK, 4609,
                     6145);
    assert {} + fs.logged == fs.logged;
  }

  /* Ten blocks from 100 on, mapped directly. */
  function TightAddrs(): (addrs: seq<nat>)
    ensures |addrs| == NDIRECT + 1
  {
    [100, 101, 102, 103, 104, 105, 106, 107, 108, 109, 0, 0, 0]
  }

  ghost function TightOwned(): (r: set<nat>)
    ensures forall b :: b in r <==> 100 <= b < 110
  {
    {100, 101, 102, 103, 104, 105, 106, 107, 108, 109}
  }

  lemma TightTable(blocks: seq<Block>)
    requires |blocks| > 17000
    ensures AddrsOk(TightAddrs(), |blocks|) && InRange(Table(TightAddrs(), blocks), |blocks|)
    ensures Injective(Table(TightAddrs(), blocks), 0) && Mapped(Table(TightAddrs(), blocks), 0, 10)
    ensures Owned(Table(TightAddrs(), blocks), 0) == TightOwned()
  {
    var m := Table(TightAddrs(), blocks);
    forall i | 0 <= i < MAXFILE ensures m[i] == if i < 10 then 100 + i else 0 {
    }
    forall b | b in TightOwned() ensures b in Owned(m, 0) {
      assert m[b - 100] == b;
    }
  }

  lemma AllMarked(bits: seq<bv8>, n: nat)
    requires n <= 8 * |bits| && forall i :: 0 <= i < |bits| ==> bits[i] == 0xFF
    ensures forall b: nat :: b < n ==> b in UsedSet(bits, n)
  {
    hide Test;
    forall b: nat | b < n ensures b in UsedSet(bits, n) {
      FullByte(b % 8);
    }
  }

  /* A disk of five bitmap blocks on which all but those four blocks are in use. */
  method TightDisk() returns (fs: Fs)
    ensures fresh(fs) && fs.Valid() && fs.nblocks == 20480 && fs.bmapstart == 30 && fs.inodestart == 2
    ensures fs.Free() == TightNew() && |fs.itable| == 1
  {
    hide Test;
    var bits: seq<bv8> := seq(2560, i => 0xFF);
    AllMarked(bits, 20480);
    hide UsedSet;
    fs := new Fs(20480, 30, 2, bits, seq(20480, i => ZeroBlock()), [ZeroBlock()], map[]);
    var ok := fs.Bfree(5000);
    ok := fs.Bfree(9000);
    ok := fs.Bfree(13000);
    ok := fs.Bfree(17000);
  }

  lemma TightOwners(fs: Fs)
    requires fs.Valid() && fs.nblocks == 20480 && fs.Free() == TightNew()
    ensures var others := fs.Used() - TightOwned();
            && TightOwned() <= fs.Used() && 0 in others && {2, 31, 32, 33, 34} <= others
  {
    hide UsedSet;
    hide TightOwned;
    forall b: nat | b < 110 ensures b in fs.Used() {
      assert b !in fs.Free();
    }
  }

  lemma TightReady(fs: Fs, ip: Inode, others: set<nat>)
    requires fs.Valid() && fs.nblocks == 20480 && fs.bmapstart == 30 && fs.inodestart == 2 && fs.Free() == TightNew()
    requires ip.inum == 1 && ip.size == 4609 && ip.addrs == TightAddrs() && others == fs.Used() - TightOwned()
    requires 1 in fs.dinodes && fs.dinodes[1] == ip.Record()
    ensures InodeOk(fs, ip, others) && Layout(fs, TightNew(), ip.inum, others)
  {
    hide UsedSet;
    hide Table;
    hide Injective;
    hide Mapped;
    hide InRange;
    hide TightAddrs;
    hide TightOwned;
    hide TightNew;
    hide Owned;
    hide Fs.Free;
    hide Fs.BBlocks;
    hide Fs.TableOk;
    TightTable(fs.blocks);
    TightOwners(fs);
    FourBitmaps(fs);
    TightSizes();
    TightHead();
  }

  lemma TightHead()
    ensures TightAddrs()[NDIRECT] == 0
  {
  }

  /* So the budget of MAXOPBLOCKS is really needed: a run of the code that logs ten blocks. */
  method TightRun() returns (fs: Fs, r: int, ok: bool)
    ensures ok && r == CHUNK && |fs.logged| == MAXOPBLOCKS
  {
    hide UsedSet;
    hide InodeOk;
    hide Layout;
    hide Stored;
    hide TightAddrs;
    hide TightOwned;
    hide Fs.Free;
    hide Fs.TableOk;
    fs := TightDisk();
    var ip := new Inode(1, Dinode(T_FILE, 0, 0, 1, 4609, TightAddrs()));
    TightTable(fs.blocks);
    fs.Iupdate(ip);
    fs.logged := {};
    ghost var others := fs.Used() - TightOwned();
    TightReady(fs, ip, others);
    var chunk: seq<byte> := seq(CHUNK, i => 0);
    r, ok := TightWrite(fs, ip, chunk, others);
  }

  // ----- filewrite

  class File {
    const writable: bool
    const ip: Inode
    var off: nat

    constructor (ip: Inode, writable: bool)
      ensures this.ip == ip && this.writable == writable && off == 0
    {
      this.ip, this.writable := ip, writable;
      off := 0;
    }
  }

  /* How many bytes of an n-byte write at off go into a file of this size: whole chunks up
     to the largest file. */
  function Accepted(off: nat, size: nat, n: nat): (r: nat)
    ensures r <= n
  {
    if off > size then 0
    else if off + n <= MAXFILE * BSIZE then n
    else if off > MAXFILE * BSIZE then 0
    else (MAXFILE * BSIZE - off) / CHUNK * CHUNK
  }

  lemma WholeChunks(i: nat, room: nat)
    requires i % CHUNK == 0
    ensures i + CHUNK <= room <==> i + CHUNK <= room / CHUNK * CHUNK
    ensures i <= room / CHUNK * CHUNK < i + CHUNK ==> i == room / CHUNK * CHUNK
    ensures (i + CHUNK) % CHUNK == 0
  {
    assert CHUNK == 1536;
  }

  lemma NextChunk(off0: nat, size: nat, n: nat, i: nat, n1: nat)
    requires i < n && off0 <= size && i % CHUNK == 0 && i <= Accepted(off0, size, n)
    requires n1 == if n - i > CHUNK then CHUNK else n - i
    ensures off0 + i + n1 > MAXFILE * BSIZE <==> i == Accepted(off0, size, n)
    ensures off0 + i + n1 <= MAXFILE * BSIZE ==> i + n1 <= Accepted(off0, size, n)
    ensures i + n1 < n ==> (i + n1) % CHUNK == 0
  {
    assert CHUNK == 1536;
    if off0 <= MAXFILE * BSIZE {
      WholeChunks(i, MAXFILE * BSIZE - off0);
    }
  }

  /* One transaction of filewrite: begin_op, writei, advance the offset, end_op. */
  method Transaction(fs: Fs, f: File, chunk: seq<byte>, ghost others: set<nat>) returns (r: int, ok: bool)
    requires InodeOk(fs, f.ip, others) && f.off < 0x1_0000_0000 && 0 < |chunk| <= CHUNK
    modifies fs`bits, fs`blocks, fs`logged, fs`itable, fs`dinodes, f.ip`addrs, f.ip`size, f`off
    ensures fs.Valid() && (ok ==> InodeOk(fs, f.ip, others) && |fs.logged| <= MAXOPBLOCKS)
    ensures !ok ==> fs.AllUsed()
    ensures !ok <==> && old(f.off) <= old(f.ip.size) && old(f.off) + |chunk| <= MAXFILE * BSIZE
                     && |old(fs.Free())| < Need(old(f.ip.size), Max(old(f.ip.size), old(f.off) + |chunk|))
    ensures ok ==> |fs.Free()| == |old(fs.Free())| - Need(old(f.ip.size), f.ip.size)
    ensures ok ==> Kept(old(fs.blocks), fs.blocks, others) && OnlyInode(old(fs.dinodes), fs.dinodes, f.ip.inum)
    ensures r == -1 <==> old(f.off) > old(f.ip.size) || old(f.off) + |chunk| > MAXFILE * BSIZE
    ensures r == -1 ==> ok && f.off == old(f.off) && f.ip.size == old(f.ip.size)
    ensures r == -1 ==> Content(fs, f.ip, others) == old(Content(fs, f.ip, others))
    ensures ok && r != -1 ==> r == |chunk| && f.off == old(f.off) + r && f.ip.size == Max(old(f.ip.size), f.off)
    ensures ok && r != -1 ==> Content(fs, f.ip, others) == Splice(old(Content(fs, f.ip, others)), old(f.off), chunk)
  {
    hide Fs.TableOk;
    hide Mapped;
    hide InRange;
    hide BlocksFor;
    hide Fs.AllUsed;
    hide UsedSet;
    hide Ownership;
    hide Grown;
    hide WriteSet;
    hide Splice;
    hide Kept;
    hide OnlyInode;
    hide Need;
    NeedNone(f.ip.size);
    ghost var free0 := fs.Free();
    ghost var m, ind, used, size := fs.Map(f.ip), f.ip.addrs[NDIRECT], fs.Used(), f.ip.size;
    fs.logged := {};
    assert fs.Free() == free0;
    r, ok := Writei(fs, f.ip, chunk, f.off, others);
    if ok && r != -1 {
      assert f.ip.size == |Content(fs, f.ip, others)|;
      TransactionBound(fs, m, ind, used, fs.Map(f.ip), f.ip.addrs[NDIRECT], fs.Used(), f.ip.inum, f.off, r, size,
                       f.ip.size);
      assert {} + fs.logged == fs.logged;
    }
    if r > 0 {
      f.off := f.off + r;
    }
  }

  lemma KeptThenOnly(b0: seq<Block>, b1: seq<Block>, b2: seq<Block>, others: set<nat>,
                     d0: map<nat, Dinode>, d1: map<nat, Dinode>, d2: map<nat, Dinode>, inum: nat)
    requires Kept(b0, b1, others) && Kept(b1, b2, others) && OnlyInode(d0, d1, inum) && OnlyInode(d1, d2, inum)
    ensures Kept(b0, b2, others) && OnlyInode(d0, d2, inum)
  {
  }

  lemma KeptNone(blocks: seq<Block>, others: set<nat>, d: map<nat, Dinode>, inum: nat)
    ensures Kept(blocks, blocks, others) && OnlyInode(d, d, inum)
  {
  }

  lemma StartsValid(fs: Fs, ip: Inode, others: set<nat>)
    requires InodeOk(fs, ip, others)
    ensures fs.Valid()
  {
  }

  lemma AcceptedFacts(off: nat, size: nat, n: nat)
    ensures off > size ==> Accepted(off, size, n) == 0
  {
  }

  /* The size of the file once `done` bytes are in. */
  function SizeWith(off: nat, size: nat, done: nat): nat {
    if done == 0 then size else Max(size, off + done)
  }

  /* How many times filewrite calls begin_op: once for every chunk that goes in, and once
     more for one that is refused. */
  function Transactions(done: nat, n: nat): nat {
    (done + CHUNK - 1) / CHUNK + (if done < n then 1 else 0)
  }

  lemma OneMoreChunk(i: nat, n1: nat)
    requires i % CHUNK == 0 && 0 < n1 <= CHUNK
    ensures (i + n1 + CHUNK - 1) / CHUNK == (i + CHUNK - 1) / CHUNK + 1
  {
    assert CHUNK == 1536;
  }

  lemma NeedMore(off: nat, size: nat, i: nat, n1: nat, done: nat)
    requires off <= size && 0 < n1 && i + n1 <= done
    ensures var s := SizeWith(off, size, i);
            && Need(size, s) + Need(s, Max(s, off + i + n1)) <= Need(size, SizeWith(off, size, done))
            && Max(s, off + i + n1) == SizeWith(off, size, i + n1)
  {
    var s := SizeWith(off, size, i);
    NeedSum(size, s, Max(s, off + i + n1));
    NeedSum(size, Max(s, off + i + n1), SizeWith(off, size, done));
  }

  lemma NeedStep(off: nat, size: nat, i: nat, n1: nat)
    requires off <= size && 0 < n1
    ensures Need(size, SizeWith(off, size, i)) + Need(SizeWith(off, size, i), SizeWith(off, size, i + n1)) ==
            Need(size, SizeWith(off, size, i + n1))
  {
    NeedSum(size, SizeWith(off, size, i), SizeWith(off, size, i + n1));
  }

  /* What was written before and the next chunk make one longer splice. */
  lemma SpliceNext(c: seq<byte>, c1: seq<byte>, off: nat, src: seq<byte>, i: nat, n1: nat)
    requires off <= |c| && i + n1 <= |src| && c1 == (if i == 0 then c else Splice(c, off, src[..i])) && off + i <= |c1|
    ensures Splice(c1, off + i, src[i..i + n1]) == Splice(c, off, src[..i + n1])
  {
    if i > 0 {
      assert src[i..][..n1] == src[i..i + n1];
      SpliceRound(c, off, src, i, n1);
    }
  }

  /* filewrite on an inode; ok is false where balloc panics.  Each element of txns is what
     one begin_op ... end_op handed to log_write. */
  method Filewrite(fs: Fs, f: File, src: seq<byte>, ghost others: set<nat>)
    returns (r: int, ok: bool, ghost txns: seq<set<nat>>)
    requires InodeOk(fs, f.ip, others) && f.off < 0x8000_0000 && |src| < 0x8000_0000
    modifies fs`bits, fs`blocks, fs`logged, fs`itable, fs`dinodes, f.ip`addrs, f.ip`size, f`off
    ensures fs.Valid() && (ok ==> InodeOk(fs, f.ip, others))
    ensures !ok ==> fs.AllUsed()
    ensures var done := Accepted(old(f.off), old(f.ip.size), |src|);
            && (!ok <==>
                  && f.writable
                  && |old(fs.Free())| < Need(old(f.ip.size), SizeWith(old(f.off), old(f.ip.size), done)))
            && (ok ==> |txns| == if f.writable then Transactions(done, |src|) else 0)
    ensures ok ==> Kept(old(fs.blocks), fs.blocks, others) && OnlyInode(old(fs.dinodes), fs.dinodes, f.ip.inum)
    ensures forall t :: t in txns ==> |t| <= MAXOPBLOCKS
    ensures !f.writable ==>
              ok && r == -1 && Content(fs, f.ip, others) == old(Content(fs, f.ip, others)) && f.off == old(f.off)
    ensures f.writable && ok ==>
              var done := Accepted(old(f.off), old(f.ip.size), |src|);
              && r == (if done == |src| then |src| else -1)
              && f.off == old(f.off) + done
              && (done > 0 ==>
                    Content(fs, f.ip, others) == Splice(old(Content(fs, f.ip, others)), old(f.off), src[..done]))
              && (done == 0 ==> Content(fs, f.ip, others) == old(Content(fs, f.ip, others)))
  {
    hide InodeOk;
    hide Kept;
    hide OnlyInode;
    hide Splice;
    hide Grown;
    hide Accepted;
    hide Fs.AllUsed;
    hide Fs.Valid;
    hide UsedSet;
    hide Ownership;
    hide Content;
    hide Need;
    hide Fs.Free;
    txns := [];
    StartsValid(fs, f.ip, others);
    KeptNone(fs.blocks, others, fs.dinodes, f.ip.inum);
    if !f.writable {
      return -1, true, txns;
    }
    ghost var c, size0, off0, done := Content(fs, f.ip, others), f.ip.size, f.off, Accepted(f.off, f.ip.size, |src|);
    ghost var free0 := fs.Free();
    var n := |src|;
    var i := 0;
    ok := true;
    AcceptedFacts(off0, size0, n);
    NeedNone(size0);
    while i < n
      invariant 0 <= i <= done && ok && f.off == off0 + i && (i < n ==> i % CHUNK == 0)
      invariant fs.Valid() && InodeOk(fs, f.ip, others) && f.ip.size == SizeWith(off0, size0, i)
      invariant |txns| == (i + CHUNK - 1) / CHUNK && |fs.Free()| == |free0| - Need(size0, f.ip.size)
      invariant Content(fs, f.ip, others) == if i == 0 then c else Splice(c, off0, src[..i])
      invariant i > 0 ==> off0 <= size0
      invariant Kept(old(fs.blocks), fs.blocks, others) && OnlyInode(old(fs.dinodes), fs.dinodes, f.ip.inum)
      invariant forall t :: t in txns ==> |t| <= MAXOPBLOCKS
    {
      var n1 := if n - i > CHUNK then CHUNK else n - i;
      ghost var c1, b1, d1, s1 := Content(fs, f.ip, others), fs.blocks, fs.dinodes, f.ip.size;
      if off0 <= size0 { NextChunk(off0, size0, n, i, n1); }
      var r1;
      r1, ok := Transaction(fs, f, src[i..i + n1], others);
      if !ok {
        NeedMore(off0, size0, i, n1, done);
        return -1, false, txns;
      }
      txns := txns + [fs.logged];
      KeptThenOnly(old(fs.blocks), b1, fs.blocks, others, old(fs.dinodes), d1, fs.dinodes, f.ip.inum);
      if r1 < 0 {
        break;
      }
      SpliceNext(c, c1, off0, src, i, n1);
      NeedStep(off0, size0, i, n1);
      OneMoreChunk(i, n1);
      i := i + r1;
    }
    return if i == n then n else -1, ok, txns;
  }
}
