/**
readi and writei of fs.c: a file is a byte sequence without holes, and a write logs exactly
the blocks that it changes.
*/
module FileIo {
  import opened InodeMap
  import opened FileSystem

  // ----- the bytes of a file under block updates

  function Max(a: nat, b: nat): nat {
    if a > b then a else b
  }

  function Patch(b: Block, at: nat, chunk: seq<byte>): (r: Block)
    requires at + |chunk| <= BSIZE
    ensures forall i :: 0 <= i < BSIZE ==> r[i] == if at <= i < at + |chunk| then chunk[i - at] else b[i]
  {
    b[..at] + chunk + b[at + |chunk|..]
  }

  lemma BytesKept(m: seq<nat>, m': seq<nat>, blocks: seq<Block>, blocks': seq<Block>, n: nat)
    requires InRange(m, |blocks|) && InRange(m', |blocks'|) && n <= MAXFILE * BSIZE
    requires forall j :: 0 <= j < BlocksFor(n) ==> m'[j] == m[j] && m[j] < |blocks'| && blocks'[m[j]] == blocks[m[j]]
    ensures Bytes(m', blocks', n) == Bytes(m, blocks, n)
  {
    forall i | 0 <= i < n ensures Bytes(m', blocks', n)[i] == Bytes(m, blocks, n)[i] {
      assert i / BSIZE < BlocksFor(n);
    }
  }

  /* Overwriting part of file block off / BSIZE is a splice of the file's bytes. */
  lemma BytesPatched(m: seq<nat>, ind: nat, blocks: seq<Block>, len: nat, off: nat, chunk: seq<byte>)
    requires InRange(m, |blocks|) && Injective(m, ind)
    requires off <= len <= MAXFILE * BSIZE && off + |chunk| <= MAXFILE * BSIZE
    requires 0 < |chunk| && off % BSIZE + |chunk| <= BSIZE
    requires forall j :: 0 <= j < BlocksFor(Max(len, off + |chunk|)) ==> m[j] != 0
    ensures var a := m[off / BSIZE];
            var blocks' := blocks[a := Patch(blocks[a], off % BSIZE, chunk)];
            Bytes(m, blocks', Max(len, off + |chunk|)) == Splice(Bytes(m, blocks, len), off, chunk)
  {
    var a, n := m[off / BSIZE], Max(len, off + |chunk|);
    var blocks' := blocks[a := Patch(blocks[a], off % BSIZE, chunk)];
    var lhs, rhs := Bytes(m, blocks', n), Splice(Bytes(m, blocks, len), off, chunk);
    forall i | 0 <= i < n ensures lhs[i] == rhs[i] {
      InBlock(i, off, |chunk|);
      assert i / BSIZE < BlocksFor(n);
      if i / BSIZE != off / BSIZE {
        assert m[i / BSIZE] != a;
      }
    }
  }

  /* Byte i lies in the written part exactly when its block and offset do. */
  lemma InBlock(i: nat, off: nat, n: nat)
    requires 0 < n && off % BSIZE + n <= BSIZE
    ensures off <= i < off + n <==> i / BSIZE == off / BSIZE && off % BSIZE <= i % BSIZE < off % BSIZE + n
    ensures off <= i < off + n ==> i % BSIZE - off % BSIZE == i - off
  {
  }

  /* Part of one block is a slice of the file. */
  lemma SliceOfBlock(m: seq<nat>, blocks: seq<Block>, n: nat, off: nat, k: nat)
    requires InRange(m, |blocks|) && off + k <= n <= MAXFILE * BSIZE && 0 < k && off % BSIZE + k <= BSIZE
    ensures blocks[m[off / BSIZE]][off % BSIZE..off % BSIZE + k] == Bytes(m, blocks, n)[off..off + k]
  {
    var lhs, rhs := blocks[m[off / BSIZE]][off % BSIZE..off % BSIZE + k], Bytes(m, blocks, n)[off..off + k];
    forall i | 0 <= i < k ensures lhs[i] == rhs[i] {
      InBlock(off + i, off, k);
    }
  }

  lemma SpliceTwice(c: seq<byte>, off: nat, s: seq<byte>, t: seq<byte>)
    requires off <= |c|
    ensures Splice(Splice(c, off, s), off + |s|, t) == Splice(c, off, s + t)
  {
  }

  lemma SpliceNothing(c: seq<byte>, off: nat)
    requires off <= |c|
    ensures Splice(c, off, []) == c
  {
  }

  // ----- the inode and its invariant

  /* No block is shared, the bitmap is exact, there are no holes, and the inode on disk is
     the inode in memory. */
  ghost predicate InodeOk(fs: Fs, ip: Inode, others: set<nat>)
    reads fs, ip
  {
    && fs.Valid() && fs.FileOk(ip, others)
    && ip.size <= MAXFILE * BSIZE
    && Mapped(fs.Map(ip), ip.addrs[NDIRECT], BlocksFor(ip.size))
    && ip.inum in fs.dinodes && fs.dinodes[ip.inum] == ip.Record()
  }

  /* The first n bytes, as long as they lie in mapped blocks. */
  ghost function Prefix(fs: Fs, ip: Inode, others: set<nat>, n: nat): (r: seq<byte>)
    requires fs.Valid() && fs.FileOk(ip, others) && n <= MAXFILE * BSIZE
    reads fs, ip
  {
    Bytes(fs.Map(ip), fs.blocks, n)
  }

  ghost function Content(fs: Fs, ip: Inode, others: set<nat>): (r: seq<byte>)
    requires InodeOk(fs, ip, others)
    reads fs, ip
    ensures |r| == ip.size
  {
    Prefix(fs, ip, others, ip.size)
  }

  /* The blocks of `others` keep their contents. */
  ghost predicate Kept(blocks: seq<Block>, blocks': seq<Block>, others: set<nat>) {
    |blocks'| == |blocks| && forall b :: b in others && b < |blocks| ==> blocks'[b] == blocks[b]
  }

  lemma KeptSame(blocks: seq<Block>, others: set<nat>)
    ensures Kept(blocks, blocks, others)
  {
  }

  lemma KeptTwice(b0: seq<Block>, b1: seq<Block>, b2: seq<Block>, others: set<nat>)
    requires Kept(b0, b1, others) && Kept(b1, b2, others)
    ensures Kept(b0, b2, others)
  {
  }

  /* Blocks in use keep their contents but for the indirect block, which is no other file's. */
  lemma KeptByBmap(m: seq<nat>, ind: nat, used: set<nat>, others: set<nat>, blocks: seq<Block>, blocks': seq<Block>,
                   ind': int)
    requires Ownership(m, ind, used, others) && |blocks'| == |blocks|
    requires forall b :: b in used && b != ind' ==> b < |blocks| && blocks'[b] == blocks[b]
    requires ind' == -1 || (ind' == ind && ind != 0) || (ind' >= 0 && ind' !in used)
    ensures Kept(blocks, blocks', others)
  {
    assert ind != 0 ==> ind in Owned(m, ind);
  }

  lemma KeptByPatch(m: seq<nat>, ind: nat, used: set<nat>, others: set<nat>, blocks: seq<Block>, bn: nat, data: Block)
    requires Ownership(m, ind, used, others) && bn < |m| && m[bn] != 0 && m[bn] < |blocks|
    ensures Kept(blocks, blocks[m[bn] := data], others)
  {
    assert m[bn] in Owned(m, ind);
  }

  // ----- readi

  twostate predicate Untouched(fs: Fs, ip: Inode)
    reads fs, ip
  {
    && fs.bits == old(fs.bits) && fs.blocks == old(fs.blocks) && fs.logged == old(fs.logged)
    && fs.itable == old(fs.itable) && fs.dinodes == old(fs.dinodes) && ip.addrs == old(ip.addrs)
       && ip.size == old(ip.size)
  }

  /* One round of the loop of readi: at most `left` bytes at off, within one block. */
  method ReadChunk(fs: Fs, ip: Inode, off: nat, left: nat, ghost others: set<nat>) returns (chunk: seq<byte>)
    requires InodeOk(fs, ip, others) && 0 < left && off + left <= ip.size
    modifies fs`bits, fs`blocks, fs`logged, ip`addrs
    ensures Untouched(fs, ip) && InodeOk(fs, ip, others)
    ensures 0 < |chunk| <= left && chunk == Content(fs, ip, others)[off..off + |chunk|]
  {
    hide UsedSet;
    hide Ownership;
    var bn := off / BSIZE;
    assert bn < BlocksFor(ip.size) <= MAXFILE;
    var a, ok := fs.Bmap(ip, bn, others);
    var m := if left < BSIZE - off % BSIZE then left else BSIZE - off % BSIZE;
    SliceOfBlock(fs.Map(ip), fs.blocks, ip.size, off, m);
    chunk := fs.blocks[a][off % BSIZE..off % BSIZE + m];
  }

  /* readi; r is -1 on error.  It changes nothing: without holes bmap never allocates. */
  method Readi(fs: Fs, ip: Inode, off0: nat, n0: nat, ghost others: set<nat>) returns (dst: seq<byte>, r: int)
    requires InodeOk(fs, ip, others) && off0 < 0x1_0000_0000 && n0 < 0x1_0000_0000
    modifies fs`bits, fs`blocks, fs`logged, ip`addrs
    ensures Untouched(fs, ip) && InodeOk(fs, ip, others)
    ensures r == -1 <==> off0 > ip.size || off0 + n0 >= 0x1_0000_0000
    ensures r != -1 ==> r == |dst| == (if off0 + n0 > ip.size then ip.size - off0 else n0)
    ensures r != -1 ==> dst == Content(fs, ip, others)[off0..off0 + r]
  {
    hide InodeOk;
    hide Prefix;
    var off, n := off0, n0;
    dst := [];
    if off > ip.size || (off + n) % 0x1_0000_0000 < off {
      return [], -1;
    }
    if off + n > ip.size {
      n := ip.size - off;
    }
    ghost var c := Content(fs, ip, others);
    var tot := 0;
    while tot < n
      invariant 0 <= tot <= n && off == off0 + tot && |dst| == tot && off0 + n <= ip.size
      invariant Untouched(fs, ip) && InodeOk(fs, ip, others) && Content(fs, ip, others) == c
      invariant dst == c[off0..off0 + tot]
    {
      var chunk := ReadChunk(fs, ip, off, n - tot, others);
      dst := dst + chunk;
      tot, off := tot + |chunk|, off + |chunk|;
    }
    return dst, n;
  }

  // ----- writei

  /* Within writei the blocks of the first `len` bytes are in place, although the size has
     not been raised yet. */
  ghost predicate Extent(fs: Fs, ip: Inode, others: set<nat>, len: nat)
    reads fs, ip
  {
    && fs.Valid() && fs.FileOk(ip, others) && len <= MAXFILE * BSIZE
    && Mapped(fs.Map(ip), ip.addrs[NDIRECT], BlocksFor(len))
  }

  lemma ExtentStep(len: nat, off: nat, m: nat)
    requires off <= len && 0 < m && off % BSIZE + m <= BSIZE
    ensures var k, k', bn := BlocksFor(len), BlocksFor(Max(len, off + m)), off / BSIZE;
            bn <= k && k' == Max(k, bn + 1)
  {
  }

  /* Mapping the first unmapped block moves the end of the file map by one. */
  lemma MappedNext(m: seq<nat>, ind: nat, ind': nat, k: nat, addr: nat)
    requires |m| == MAXFILE && k < MAXFILE && Mapped(m, ind, k) && addr != 0
    requires if k < NDIRECT then ind' == ind else ind' != 0
    ensures Mapped(m[k := addr], ind', k + 1)
  {
  }

  /* The block for offset off, allocated if off is at the end: bmap as writei uses it. */
  method MapForWrite(fs: Fs, ip: Inode, off: nat, m: nat, ghost others: set<nat>, ghost len: nat)
    returns (addr: nat, ok: bool)
    requires Extent(fs, ip, others, len) && off <= len && 0 < m && off % BSIZE + m <= BSIZE
             && off + m <= MAXFILE * BSIZE
    modifies fs`bits, fs`blocks, fs`logged, ip`addrs
    ensures fs.Valid()
    ensures !ok ==> fs.Short(old(fs.Used()), Need(len, Max(len, off + m)))
    ensures ok ==> Extent(fs, ip, others, Max(len, off + m)) && addr == fs.Map(ip)[off / BSIZE] && 0 < addr < fs.nblocks
    ensures ok ==>
              Prefix(fs, ip, others, len) == old(Prefix(fs, ip, others, len)) && Kept(old(fs.blocks), fs.blocks, others)
    ensures ok ==>
              Grown(old(fs.Map(ip)), old(ip.addrs[NDIRECT]), old(fs.Used()), fs.Map(ip), ip.addrs[NDIRECT], fs.Used(),
                         BlocksFor(len), BlocksFor(Max(len, off + m)))
    ensures ok ==> fs.logged + {addr} == old(fs.logged) + {addr} +
                     Overhead(fs, ip.addrs[NDIRECT], fs.Used() - old(fs.Used()), BlocksFor(len),
                              BlocksFor(Max(len, off + m)))
  {
    hide Fs.Short;
    hide Fs.TableOk;
    hide Bytes;
    hide UsedSet;
    hide Ownership;
    hide Fs.BBlocks;
    hide Grown;
    hide Overhead;
    hide Kept;
    hide Fs.AllUsed;
    ghost var k, bn := BlocksFor(len), off / BSIZE;
    ExtentStep(len, off, m);
    ghost var m0, ind0, used0, blocks0 := fs.Map(ip), ip.addrs[NDIRECT], fs.Used(), fs.blocks;
    ghost var lg := fs.logged;
    assert bn >= k ==> Need(len, Max(len, off + m)) == if ind0 == 0 && bn >= NDIRECT then 2 else 1;
    addr, ok := fs.Bmap(ip, off / BSIZE, others);
    if ok {
      if bn < k {
        KeptByBmap(m0, ind0, used0, others, blocks0, fs.blocks, if bn < NDIRECT then -1 else ip.addrs[NDIRECT]);
        GrownNot(fs, m0, ind0, used0, k, lg);
      } else {
        KeptByBmap(m0, ind0, used0, others, blocks0, fs.blocks, if bn < NDIRECT then -1 else ip.addrs[NDIRECT]);
        GrownOnce(fs, m0, ind0, used0, ip.addrs[NDIRECT], fs.Used(), k, addr, lg);
        MappedNext(m0, ind0, ip.addrs[NDIRECT], k, addr);
        KeepsBytes(m0, ind0, used0, others, blocks0, fs.Map(ip), ip.addrs[NDIRECT], fs.blocks, len);
      }
    }
  }

  /* The file map grew from k to k' blocks, and the bitmap by the blocks this needed. */
  ghost predicate Grown(m: seq<nat>, ind: nat, used: set<nat>, m': seq<nat>, ind': nat, used': set<nat>, k: nat,
                        k': nat) {
    && |m| == |m'| == MAXFILE && k <= k' <= MAXFILE
    && (forall j :: 0 <= j < k ==> m'[j] == m[j])
    && (k > NDIRECT ==> ind' == ind)
    && used <= used'
    && |used' - used| == NewBlocks(k, k')
  }

  /* Blocks logged besides data and inode: bitmap blocks and the indirect block. */
  ghost function Overhead(fs: Fs, ind: nat, added: set<nat>, k: nat, k': nat): set<nat> {
    fs.BBlocks(added) + (if k < k' && NDIRECT < k' then {ind} else {})
  }

  lemma GrownNot(fs: Fs, m: seq<nat>, ind: nat, used: set<nat>, k: nat, lg: set<nat>)
    requires |m| == MAXFILE && k <= MAXFILE
    ensures Grown(m, ind, used, m, ind, used, k, k) && lg + Overhead(fs, ind, used - used, k, k) == lg
  {
    assert used - used == {};
    assert fs.BBlocks({}) == {};
  }

  lemma GrownOnce(fs: Fs, m: seq<nat>, ind: nat, used: set<nat>, ind': nat, used': set<nat>, k: nat, addr: nat,
                  lg: set<nat>)
    requires |m| == MAXFILE && k < MAXFILE && used <= used'
    requires |used' - used| == (if ind == 0 && k >= NDIRECT then 2 else 1)
    requires (ind != 0 || k < NDIRECT ==> ind' == ind) && (ind != 0 <==> k > NDIRECT)
    ensures Grown(m, ind, used, m[k := addr], ind', used', k, k + 1)
    ensures lg + fs.BBlocks(used' - used) + {addr} + (if k < NDIRECT then {} else {ind'}) ==
            lg + {addr} + Overhead(fs, ind', used' - used, k, k + 1)
  {
    hide Fs.BBlocks;
  }

  lemma GrownTwice(m0: seq<nat>, ind0: nat, used0: set<nat>, m1: seq<nat>, ind1: nat, used1: set<nat>,
                   m2: seq<nat>, ind2: nat, used2: set<nat>, k0: nat, k1: nat, k2: nat)
    requires Grown(m0, ind0, used0, m1, ind1, used1, k0, k1) && Grown(m1, ind1, used1, m2, ind2, used2, k1, k2)
    ensures Grown(m0, ind0, used0, m2, ind2, used2, k0, k2)
    ensures used2 - used0 == (used1 - used0) + (used2 - used1)
  {
    assert used2 - used0 == (used1 - used0) + (used2 - used1);
    assert (used1 - used0) !! (used2 - used1);
  }

  lemma OverheadTwice(fs: Fs, ind1: nat, ind2: nat, added1: set<nat>, added2: set<nat>, k0: nat, k1: nat, k2: nat)
    requires k0 <= k1 <= k2 && (k1 > NDIRECT ==> ind1 == ind2)
    ensures Overhead(fs, ind1, added1, k0, k1) + Overhead(fs, ind2, added2, k1, k2) ==
            Overhead(fs, ind2, added1 + added2, k0, k2)
  {
    assert fs.BBlocks(added1 + added2) == fs.BBlocks(added1) + fs.BBlocks(added2);
  }

  /* Blocks in use before keep their contents but for the indirect block, so the bytes of
     the file stay the same. */
  lemma KeepsBytes(m: seq<nat>, ind: nat, used: set<nat>, others: set<nat>, blocks: seq<Block>,
                   m': seq<nat>, ind': nat, blocks': seq<Block>, len: nat)
    requires InRange(m, |blocks|) && InRange(m', |blocks'|) && len <= MAXFILE * BSIZE && |blocks| == |blocks'|
    requires Ownership(m, ind, used, others) && Mapped(m, ind, BlocksFor(len))
    requires forall b :: b in used && b != ind' ==> b < |blocks| && blocks'[b] == blocks[b]
    requires ind' == ind || ind' !in used
    requires forall j :: 0 <= j < BlocksFor(len) ==> m'[j] == m[j]
    ensures Bytes(m', blocks', len) == Bytes(m, blocks, len)
  {
    forall j | 0 <= j < BlocksFor(len) ensures blocks'[m[j]] == blocks[m[j]] {
      assert m[j] in Owned(m, ind);
    }
    BytesKept(m, m', blocks, blocks', len);
  }

  /* Writing within one mapped block changes the bytes of the file there, and nothing else. */
  lemma PatchEffect(addrs: seq<nat>, blocks: seq<Block>, used: set<nat>, others: set<nat>, len: nat, off: nat,
                    chunk: seq<byte>)
    requires AddrsOk(addrs, |blocks|) && InRange(Table(addrs, blocks), |blocks|)
    requires Ownership(Table(addrs, blocks), addrs[NDIRECT], used, others)
    requires off <= len && Max(len, off + |chunk|) <= MAXFILE * BSIZE && 0 < |chunk| && off % BSIZE + |chunk| <= BSIZE
    requires Mapped(Table(addrs, blocks), addrs[NDIRECT], BlocksFor(Max(len, off + |chunk|)))
    ensures var m, a := Table(addrs, blocks), Table(addrs, blocks)[off / BSIZE];
            var blocks' := blocks[a := Patch(blocks[a], off % BSIZE, chunk)];
            && Table(addrs, blocks') == m && Kept(blocks, blocks', others)
            && Bytes(m, blocks', Max(len, off + |chunk|)) == Splice(Bytes(m, blocks, len), off, chunk)
  {
    hide Patch;
    hide Splice;
    hide Bytes;
    hide Kept;
    var m, ind := Table(addrs, blocks), addrs[NDIRECT];
    var data := Patch(blocks[m[off / BSIZE]], off % BSIZE, chunk);
    ExtentStep(len, off, |chunk|);
    BytesPatched(m, ind, blocks, len, off, chunk);
    MapFrame(addrs, blocks, m[off / BSIZE], data);
    KeptByPatch(m, ind, used, others, blocks, off / BSIZE, data);
  }

  /* One round of the loop of writei: as much of src as fits in the block of off. */
  method WriteChunk(fs: Fs, ip: Inode, off: nat, src: seq<byte>, ghost others: set<nat>, ghost len: nat)
    returns (m: nat, ok: bool)
    requires Extent(fs, ip, others, len) && off <= len && 0 < |src| && off + |src| <= MAXFILE * BSIZE
    modifies fs`bits, fs`blocks, fs`logged, ip`addrs
    ensures fs.Valid()
    ensures !ok ==> fs.Short(old(fs.Used()), Need(len, Max(len, off + m)))
    ensures 0 < m <= |src| && off % BSIZE + m <= BSIZE && (m < |src| ==> off % BSIZE + m == BSIZE)
    ensures ok ==> Extent(fs, ip, others, Max(len, off + m))
    ensures ok ==> Prefix(fs, ip, others, Max(len, off + m)) == Splice(old(Prefix(fs, ip, others, len)), off, src[..m])
    ensures ok ==> Kept(old(fs.blocks), fs.blocks, others)
    ensures ok ==>
              Grown(old(fs.Map(ip)), old(ip.addrs[NDIRECT]), old(fs.Used()), fs.Map(ip), ip.addrs[NDIRECT], fs.Used(),
                         BlocksFor(len), BlocksFor(Max(len, off + m)))
    ensures ok ==> fs.logged == old(fs.logged) + {fs.Map(ip)[off / BSIZE]} +
                     Overhead(fs, ip.addrs[NDIRECT], fs.Used() - old(fs.Used()), BlocksFor(len),
                              BlocksFor(Max(len, off + m)))
  {
    hide Ownership;
    hide Mapped;
    hide Bytes;
    hide InRange;
    hide NewBlocks;
    hide Need;
    hide UsedSet;
    hide Overhead;
    hide Grown;
    hide Patch;
    hide Splice;
    hide Kept;
    hide Fs.AllUsed;
    hide Fs.Short;
    m := if |src| < BSIZE - off % BSIZE then |src| else BSIZE - off % BSIZE;
    var addr;
    addr, ok := MapForWrite(fs, ip, off, m, others, len);
    if ok {
      ghost var blocks := fs.blocks;
      var data := Patch(fs.blocks[addr], off % BSIZE, src[..m]);
      PatchEffect(ip.addrs, blocks, fs.Used(), others, len, off, src[..m]);
      KeptTwice(old(fs.blocks), blocks, blocks[addr := data], others);
      fs.blocks := fs.blocks[addr := data];
      fs.logged := fs.logged + {addr};
    }
  }

  /* The disk blocks of file blocks lo, ..., hi - 1. */
  ghost function DataBlocks(m: seq<nat>, lo: nat, hi: nat): set<nat>
    requires hi <= |m|
  {
    set j | lo <= j < hi :: m[j]
  }

  /* One past the last file block that a write of n bytes at off touches. */
  function LastTouched(off: nat, n: nat): nat {
    if n == 0 then off / BSIZE else (off + n - 1) / BSIZE + 1
  }

  lemma DataStep(m1: seq<nat>, m2: seq<nat>, lo: nat, bn: nat, k: nat)
    requires |m1| == |m2| == MAXFILE && lo <= bn < MAXFILE && bn <= k <= MAXFILE
    requires forall j :: 0 <= j < k ==> m2[j] == m1[j]
    ensures DataBlocks(m1, lo, bn) + {m2[bn]} == DataBlocks(m2, lo, bn + 1)
  {
    assert forall j :: lo <= j < bn ==> m2[j] == m1[j];
  }

  lemma TouchStep(off0: nat, tot: nat, m: nat, n: nat)
    requires 0 < m && tot + m <= n && (off0 + tot) % BSIZE + m <= BSIZE
    requires tot + m < n ==> (off0 + tot) % BSIZE + m == BSIZE
    ensures LastTouched(off0, tot + m) == (off0 + tot) / BSIZE + 1
    ensures tot + m < n ==> (off0 + tot + m) / BSIZE == (off0 + tot) / BSIZE + 1
  {
  }

  /* Everything known between two rounds of the loop of writei: tot bytes are written. */
  ghost predicate Written(fs: Fs, ip: Inode, others: set<nat>, c: seq<byte>, m: seq<nat>, ind: nat, used: set<nat>,
                          lg: set<nat>, off0: nat, src: seq<byte>, tot: nat)
    requires off0 <= |c| && tot <= |src|
    reads fs, ip
  {
    var len := Max(|c|, off0 + tot);
    && Extent(fs, ip, others, len) && |c| == ip.size && |m| == MAXFILE
    && Prefix(fs, ip, others, len) == Splice(c, off0, src[..tot])
    && Grown(m, ind, used, fs.Map(ip), ip.addrs[NDIRECT], fs.Used(), BlocksFor(|c|), BlocksFor(len))
    && LastTouched(off0, tot) <= MAXFILE
    && fs.logged == lg + DataBlocks(fs.Map(ip), off0 / BSIZE, LastTouched(off0, tot)) +
                    Overhead(fs, ip.addrs[NDIRECT], fs.Used() - used, BlocksFor(|c|), BlocksFor(len))
  }

  lemma Regroup(lg: set<nat>, d: set<nat>, o: set<nat>, a: nat, o': set<nat>)
    ensures lg + d + o + {a} + o' == lg + (d + {a}) + (o + o')
  {
  }

  /* What two consecutive rounds log is what the whole write logs. */
  lemma LoggedTwice(fs: Fs, m0: seq<nat>, ind0: nat, used0: set<nat>, m1: seq<nat>, ind1: nat, used1: set<nat>,
                    m2: seq<nat>, ind2: nat, used2: set<nat>, k0: nat, k1: nat, k2: nat,
                    lg: set<nat>, lg1: set<nat>, lg2: set<nat>, lo: nat, bn: nat)
    requires Grown(m0, ind0, used0, m1, ind1, used1, k0, k1) && Grown(m1, ind1, used1, m2, ind2, used2, k1, k2)
    requires lo <= bn < MAXFILE && bn <= k1
    requires lg1 == lg + DataBlocks(m1, lo, bn) + Overhead(fs, ind1, used1 - used0, k0, k1)
    requires lg2 == lg1 + {m2[bn]} + Overhead(fs, ind2, used2 - used1, k1, k2)
    ensures Grown(m0, ind0, used0, m2, ind2, used2, k0, k2)
    ensures lg2 == lg + DataBlocks(m2, lo, bn + 1) + Overhead(fs, ind2, used2 - used0, k0, k2)
  {
    hide Overhead;
    hide DataBlocks;
    DataStep(m1, m2, lo, bn, k1);
    GrownTwice(m0, ind0, used0, m1, ind1, used1, m2, ind2, used2, k0, k1, k2);
    OverheadTwice(fs, ind1, ind2, used1 - used0, used2 - used1, k0, k1, k2);
    Regroup(lg, DataBlocks(m1, lo, bn), Overhead(fs, ind1, used1 - used0, k0, k1), m2[bn],
            Overhead(fs, ind2, used2 - used1, k1, k2));
  }

  lemma SpliceRound(c: seq<byte>, off: nat, src: seq<byte>, tot: nat, n: nat)
    requires off <= |c| && tot + n <= |src|
    ensures Splice(Splice(c, off, src[..tot]), off + tot, src[tot..][..n]) == Splice(c, off, src[..tot + n])
  {
    assert src[tot..][..n] == src[tot..tot + n];
    assert src[..tot] + src[tot..tot + n] == src[..tot + n];
    SpliceTwice(c, off, src[..tot], src[tot..tot + n]);
  }

  method WriteRound(fs: Fs, ip: Inode, ghost others: set<nat>, ghost c: seq<byte>, ghost m: seq<nat>, ghost ind: nat,
                    ghost used: set<nat>, ghost lg: set<nat>, off0: nat, src: seq<byte>, tot: nat)
    returns (tot': nat, ok: bool)
    requires off0 <= |c| && tot < |src| && off0 + |src| <= MAXFILE * BSIZE
    requires Written(fs, ip, others, c, m, ind, used, lg, off0, src, tot)
    requires LastTouched(off0, tot) == (off0 + tot) / BSIZE
    modifies fs`bits, fs`blocks, fs`logged, ip`addrs
    ensures fs.Valid()
    ensures !ok ==> fs.Short(used, Need(|c|, Max(|c|, off0 + |src|)))
    ensures tot < tot' <= |src|
    ensures ok ==>
              Written(fs, ip, others, c, m, ind, used, lg, off0, src, tot') && Kept(old(fs.blocks), fs.blocks, others)
    ensures tot' < |src| ==> LastTouched(off0, tot') == (off0 + tot') / BSIZE
  {
    hide Fs.TableOk;
    hide BlocksFor;
    hide NewBlocks;
    hide Need;
    hide UsedSet;
    hide Ownership;
    hide Overhead;
    hide DataBlocks;
    hide Splice;
    hide Grown;
    hide Mapped;
    hide Prefix;
    hide Kept;
    hide Fs.AllUsed;
    hide Fs.Short;
    hide Bytes;
    hide InRange;
    ghost var len, bn := Max(|c|, off0 + tot), (off0 + tot) / BSIZE;
    ghost var m1, ind1, used1, lg1 := fs.Map(ip), ip.addrs[NDIRECT], fs.Used(), fs.logged;
    var n;
    n, ok := WriteChunk(fs, ip, off0 + tot, src[tot..], others, len);
    TouchStep(off0, tot, n, |src|);
    ExtentStep(len, off0 + tot, n);
    tot' := tot + n;
    if ok {
      SpliceRound(c, off0, src, tot, n);
      LoggedTwice(fs, m, ind, used, m1, ind1, used1, fs.Map(ip), ip.addrs[NDIRECT], fs.Used(),
                  BlocksFor(|c|), BlocksFor(len), BlocksFor(Max(len, off0 + tot + n)), lg, lg1, fs.logged, off0 / BSIZE,
                    bn);
    } else {
      StillShort(fs, m, ind, used, m1, ind1, used1, |c|, len, Max(len, off0 + tot + n), Max(|c|, off0 + |src|));
    }
  }

  /* A round that finds the disk full: the whole write needs more than was free. */
  lemma StillShort(fs: Fs, m: seq<nat>, ind: nat, used: set<nat>, m1: seq<nat>, ind1: nat, used1: set<nat>,
                   a: nat, b: nat, c: nat, d: nat)
    requires fs.Valid() && a <= b <= c <= d && Grown(m, ind, used, m1, ind1, used1, BlocksFor(a), BlocksFor(b))
    requires fs.Short(used1, Need(b, c))
    ensures fs.Short(used, Need(a, d))
  {
    hide UsedSet;
    hide Fs.AllUsed;
    assert fs.Used() - used == (used1 - used) + (fs.Used() - used1);
  }

  /* Everything a successful writei of src at off has logged, against the state before. */
  ghost function WriteSet(fs: Fs, m': seq<nat>, ind': nat, added: set<nat>, inum: nat, off: nat, n: nat,
                          size: nat, size': nat): set<nat>
    requires |m'| == MAXFILE && LastTouched(off, n) <= MAXFILE
  {
    DataBlocks(m', off / BSIZE, LastTouched(off, n)) +
    Overhead(fs, ind', added, BlocksFor(size), BlocksFor(size')) +
    (if size < size' then {fs.IBlock(inum)} else {})
  }

  /* With the same number of blocks the inode holds the same addresses. */
  lemma SameAddrs(m: seq<nat>, m': seq<nat>, addrs: seq<nat>, addrs': seq<nat>, blocks: seq<Block>, blocks': seq<Block>,
                  used: set<nat>, used': set<nat>, k: nat)
    requires AddrsOk(addrs, |blocks|) && AddrsOk(addrs', |blocks'|)
    requires m == Table(addrs, blocks) && m' == Table(addrs', blocks')
    requires Mapped(m, addrs[NDIRECT], k) && Mapped(m', addrs'[NDIRECT], k)
    requires Grown(m, addrs[NDIRECT], used, m', addrs'[NDIRECT], used', k, k)
    ensures addrs' == addrs
  {
    forall i | 0 <= i < NDIRECT ensures addrs'[i] == addrs[i] {
      assert m[i] == addrs[i] && m'[i] == addrs'[i];
    }
  }

  lemma StartWriting(fs: Fs, ip: Inode, others: set<nat>, off0: nat, src: seq<byte>)
    requires InodeOk(fs, ip, others) && off0 <= ip.size
    ensures Written(fs, ip, others, Content(fs, ip, others), fs.Map(ip), ip.addrs[NDIRECT], fs.Used(), fs.logged, off0,
                    src, 0)
  {
    hide UsedSet;
    hide Ownership;
    SpliceNothing(Content(fs, ip, others), off0);
    GrownNot(fs, fs.Map(ip), ip.addrs[NDIRECT], fs.Used(), BlocksFor(ip.size), fs.logged);
    assert src[..0] == [];
    assert DataBlocks(fs.Map(ip), off0 / BSIZE, off0 / BSIZE) == {};
  }

  ghost predicate OnlyInode(was: map<nat, Dinode>, now: map<nat, Dinode>, inum: nat) {
    was.Keys <= now.Keys <= was.Keys + {inum} && forall i :: i in was && i != inum ==> now[i] == was[i]
  }

  lemma RegroupInode(lg: set<nat>, d: set<nat>, o: set<nat>, i: set<nat>)
    ensures lg + d + o + i == lg + (d + o + i)
  {
  }

  /* The end of writei: raise the size and write the inode through, if the file grew. */
  method Finish(fs: Fs, ip: Inode, ghost others: set<nat>, ghost c: seq<byte>, ghost addrs: seq<nat>,
                ghost blocks: seq<Block>,
                ghost used: set<nat>, ghost lg: set<nat>, off0: nat, ghost src: seq<byte>, n: nat)
    requires off0 <= |c| && n == |src| && AddrsOk(addrs, |blocks|)
    requires Mapped(Table(addrs, blocks), addrs[NDIRECT], BlocksFor(|c|))
    requires Written(fs, ip, others, c, Table(addrs, blocks), addrs[NDIRECT], used, lg, off0, src, n)
    requires ip.inum in fs.dinodes && fs.dinodes[ip.inum] == ip.Record().(addrs := addrs)
    modifies fs`logged, fs`itable, fs`dinodes, ip`size
    ensures InodeOk(fs, ip, others) && ip.size == Max(|c|, off0 + n)
    ensures Content(fs, ip, others) == Splice(c, off0, src)
    ensures Grown(Table(addrs, blocks), addrs[NDIRECT], used, fs.Map(ip), ip.addrs[NDIRECT], fs.Used(),
                  BlocksFor(|c|), BlocksFor(ip.size))
    ensures LastTouched(off0, n) <= MAXFILE
    ensures fs.logged == lg + WriteSet(fs, fs.Map(ip), ip.addrs[NDIRECT], fs.Used() - used, ip.inum, off0, n, |c|,
                                       ip.size)
    ensures ip.addrs != addrs ==> ip.size > |c|
    ensures OnlyInode(old(fs.dinodes), fs.dinodes, ip.inum)
  {
    hide Stored;
    hide Fs.TableOk;
    hide UsedSet;
    hide Ownership;
    hide Overhead;
    hide DataBlocks;
    hide Grown;
    hide Splice;
    ghost var d := DataBlocks(fs.Map(ip), off0 / BSIZE, LastTouched(off0, n));
    ghost var o := Overhead(fs, ip.addrs[NDIRECT], fs.Used() - used, BlocksFor(|c|), BlocksFor(Max(|c|, off0 + n)));
    assert src[..n] == src;
    if n > 0 && off0 + n > ip.size {
      ip.size := off0 + n;
      fs.Listed(ip.inum);
      fs.Iupdate(ip);
      RegroupInode(lg, d, o, {fs.IBlock(ip.inum)});
    } else {
      RegroupInode(lg, d, o, {});
      SameAddrs(Table(addrs, blocks), fs.Map(ip), addrs, ip.addrs, blocks, fs.blocks, used, fs.Used(), BlocksFor(|c|));
    }
  }

  lemma TooFewFree(fs: Fs, used: set<nat>, free0: set<nat>, need: int)
    requires fs.Valid() && fs.Short(used, need) && forall b :: b in free0 <==> 0 <= b < fs.nblocks && b !in used
    ensures |free0| < need && fs.AllUsed()
  {
    assert free0 == fs.Used() - used;
  }

  lemma EnoughFree(fs: Fs, free0: set<nat>, m: seq<nat>, ind: nat, used: set<nat>, m': seq<nat>, ind': nat,
                   a: nat, b: nat)
    requires fs.Valid() && forall b :: b in free0 <==> 0 <= b < fs.nblocks && b !in used
    requires Grown(m, ind, used, m', ind', fs.Used(), BlocksFor(a), BlocksFor(b))
    ensures |fs.Free()| == |free0| - Need(a, b)
  {
    assert fs.Used() - used <= free0;
    assert free0 == (fs.Used() - used) + fs.Free();
  }

  /* writei; r is -1 on error.  ok is false where balloc panics, which is exactly when fewer
     blocks are free than the write needs. */
  method Writei(fs: Fs, ip: Inode, src: seq<byte>, off0: nat, ghost others: set<nat>) returns (r: int, ok: bool)
    requires InodeOk(fs, ip, others) && off0 < 0x1_0000_0000 && |src| < 0x1_0000_0000
    modifies fs`bits, fs`blocks, fs`logged, fs`itable, fs`dinodes, ip`addrs, ip`size
    ensures !ok ==> fs.Valid() && fs.AllUsed()
    ensures !ok <==> && off0 <= old(ip.size) && off0 + |src| <= MAXFILE * BSIZE
                     && |old(fs.Free())| < Need(old(ip.size), Max(old(ip.size), off0 + |src|))
    ensures ok ==> InodeOk(fs, ip, others)
    ensures r == -1 <==> off0 > old(ip.size) || off0 + |src| > MAXFILE * BSIZE
    ensures r == -1 ==> ok && Untouched(fs, ip)
    ensures ok && r != -1 ==> |fs.Free()| == |old(fs.Free())| - Need(old(ip.size), ip.size)
    ensures ok && r != -1 ==> r == |src| && Content(fs, ip, others) == Splice(old(Content(fs, ip, others)), off0, src)
    ensures ok && r != -1 ==> Grown(old(fs.Map(ip)), old(ip.addrs[NDIRECT]), old(fs.Used()),
                                    fs.Map(ip), ip.addrs[NDIRECT], fs.Used(), BlocksFor(old(ip.size)),
                                      BlocksFor(ip.size))
    ensures ok && r != -1 ==> LastTouched(off0, |src|) <= MAXFILE
    ensures ok && r != -1 ==>
              fs.logged == old(fs.logged) + WriteSet(fs, fs.Map(ip), ip.addrs[NDIRECT], fs.Used() - old(fs.Used()),
                                                     ip.inum,
                                                     off0, |src|, old(ip.size), ip.size)
    ensures ok && ip.addrs != old(ip.addrs) ==> ip.size > old(ip.size)
    ensures ok ==> Kept(old(fs.blocks), fs.blocks, others) && OnlyInode(old(fs.dinodes), fs.dinodes, ip.inum)
  {
    hide NewBlocks;
    hide Need;
    hide Fs.Short;
    hide Kept;
    hide Fs.Free;
    hide Splice;
    hide Mapped;
    hide WriteSet;
    hide Stored;
    hide Fs.TableOk;
    hide UsedSet;
    hide Ownership;
    hide Overhead;
    hide DataBlocks;
    hide Grown;
    KeptSame(fs.blocks, others);
    var n := |src|;
    if off0 > ip.size || (off0 + n) % 0x1_0000_0000 < off0 {
      return -1, true;
    }
    if off0 + n > MAXFILE * BSIZE {
      return -1, true;
    }
    ghost var c, m, ind, used, lg := Content(fs, ip, others), fs.Map(ip), ip.addrs[NDIRECT], fs.Used(), fs.logged;
    ghost var addrs, blocks, free0 := ip.addrs, fs.blocks, fs.Free();
    StartWriting(fs, ip, others, off0, src);
    var tot := 0;
    ok := true;
    while tot < n && ok
      invariant 0 <= tot <= n && fs.Valid()
      invariant !ok ==> fs.Short(used, Need(|c|, Max(|c|, off0 + n)))
      invariant ok ==> Written(fs, ip, others, c, m, ind, used, lg, off0, src, tot) && Kept(blocks, fs.blocks, others)
      invariant tot < n ==> LastTouched(off0, tot) == (off0 + tot) / BSIZE
      invariant fs.dinodes == old(fs.dinodes) && fs.itable == old(fs.itable) && ip.size == old(ip.size)
    {
      ghost var now := fs.blocks;
      tot, ok := WriteRound(fs, ip, others, c, m, ind, used, lg, off0, src, tot);
      if ok { KeptTwice(blocks, now, fs.blocks, others); }
    }
    if ok {
      Finish(fs, ip, others, c, addrs, blocks, used, lg, off0, src, n);
      EnoughFree(fs, free0, m, ind, used, fs.Map(ip), ip.addrs[NDIRECT], |c|, ip.size);
    } else {
      TooFewFree(fs, used, free0, Need(|c|, Max(|c|, off0 + n)));
    }
    return n, ok;
  }
}
