/**
The block allocator and the inode layer of fs.c: balloc, bfree, iupdate, the reading of an
inode by ilock, and bmap on one locked inode, over the blocks the buffer cache presents.
`logged` collects the block numbers handed to log_write in the current transaction.
*/
module FileSystem {
  import opened InodeMap

  const BPB: nat := 4096

  // ----- the free-block bitmap

  function Mask(k: nat): bv8
    requires k < 8
  {
    match k
    case 0 => 1 case 1 => 2 case 2 => 4 case 3 => 8
    case 4 => 16 case 5 => 32 case 6 => 64 case _ => 128
  }

  predicate Test(x: bv8, k: nat)
    requires k < 8
  {
    x & Mask(k) != 0
  }

  function Or(x: bv8, k: nat): bv8
    requires k < 8
  {
    x | Mask(k)
  }

  function AndNot(x: bv8, k: nat): bv8
    requires k < 8
  {
    x & !Mask(k)
  }

  predicate Bit(bits: seq<bv8>, b: nat)
    requires b < 8 * |bits|
  {
    Test(bits[b / 8], b % 8)
  }

  function Marked(bits: seq<bv8>, b: nat): seq<bv8>
    requires b < 8 * |bits|
  {
    bits[b / 8 := Or(bits[b / 8], b % 8)]
  }

  function Cleared(bits: seq<bv8>, b: nat): seq<bv8>
    requires b < 8 * |bits|
  {
    bits[b / 8 := AndNot(bits[b / 8], b % 8)]
  }

  /* Bit 0 is the least significant one. */
  lemma MaskValues(k: nat)
    requires k < 7
    ensures Or(0, 0) == 1 && Or(0, k + 1) == Or(0, k) << 1
  {
  }

  lemma MaskBits(x: bv8, j: nat, k: nat)
    requires j < 8 && k < 8
    ensures Test(Or(x, j), k) <==> j == k || Test(x, k)
    ensures Test(AndNot(x, j), k) <==> j != k && Test(x, k)
  {
  }

  lemma BitAfter(bits: seq<bv8>, b: nat, c: nat)
    requires b < 8 * |bits| && c < 8 * |bits|
    ensures Bit(Marked(bits, b), c) <==> c == b || Bit(bits, c)
    ensures Bit(Cleared(bits, b), c) <==> c != b && Bit(bits, c)
  {
    hide Test;
    hide Or;
    hide AndNot;
    MaskBits(bits[b / 8], b % 8, c % 8);
  }

  lemma FullByte(k: nat)
    requires k < 8
    ensures Test(0xFF, k)
  {
  }

  /* The blocks below n marked in use. */
  function UsedSet(bits: seq<bv8>, n: nat): (r: set<nat>)
    requires n <= 8 * |bits|
  {
    set b | 0 <= b < n && Bit(bits, b)
  }

  lemma UsedAfter(bits: seq<bv8>, n: nat, b: nat)
    requires n <= 8 * |bits| && b < n
    ensures UsedSet(Marked(bits, b), n) == UsedSet(bits, n) + {b}
    ensures UsedSet(Cleared(bits, b), n) == UsedSet(bits, n) - {b}
  {
    forall c | 0 <= c < n
      ensures c in UsedSet(Marked(bits, b), n) <==> c in UsedSet(bits, n) + {b}
      ensures c in UsedSet(Cleared(bits, b), n) <==> c in UsedSet(bits, n) - {b}
    {
      BitAfter(bits, b, c);
    }
  }

  /* Bit bi of the bitmap block for blocks b, b + 1, ... is the bit of block b + bi. */
  lemma SameBlockAndBit(b: nat, bi: nat)
    requires b % BPB == 0 && bi < BPB
    ensures (b + bi) % 8 == bi % 8 && (b + bi) / BPB == b / BPB
  {
  }

  /* The in-memory copy of an inode, locked by the caller. */
  class Inode {
    const inum: nat
    var typ: short
    var major: short
    var minor: short
    var nlink: short
    var size: nat
    var addrs: seq<nat>

    /* The fields that live on disk. */
    function Record(): Dinode
      reads this
    {
      Dinode(typ, major, minor, nlink, size, addrs)
    }

    constructor (inum: nat, d: Dinode)
      ensures this.inum == inum && Record() == d
    {
      this.inum := inum;
      typ, major, minor, nlink := d.typ, d.major, d.minor, d.nlink;
      size, addrs := d.size, d.addrs;
    }
  }

  /* Read back, the inode blocks have changed at one inode only. */
  ghost predicate Stored(was: seq<Block>, now: seq<Block>, inum: nat, d: Dinode) {
    |now| == |was| && forall i: nat :: i / IPB < |now| ==>
      GetInode(now[i / IPB], i % IPB) == if i == inum then d else GetInode(was[i / IPB], i % IPB)
  }

  /* A block that holds the words of one inode more leaves the others as they were. */
  lemma StoredOne(was: seq<Block>, inum: nat, data: Block, d: Dinode)
    requires inum / IPB < |was| && Storable(d) && HoldsWords(was[inum / IPB], data, inum % IPB, Words(d))
    ensures Stored(was, was[inum / IPB := data], inum, d)
  {
    hide GetInode;
    hide HoldsWords;
    var at, k := inum / IPB, inum % IPB;
    forall i: nat | i / IPB == at
      ensures GetInode(data, i % IPB) == if i == inum then d else GetInode(was[at], i % IPB)
    {
      InodeStored(was[at], data, k, d, i % IPB);
    }
  }

  class Fs {
    const nblocks: nat
    const bmapstart: nat
    const inodestart: nat
    const niblocks: nat
    var bits: seq<bv8>
    var blocks: seq<Block>
    var itable: seq<Block>
    ghost var dinodes: map<nat, Dinode>
    ghost var logged: set<nat>

    constructor (nblocks: nat, bmapstart: nat, inodestart: nat, bits: seq<bv8>, blocks: seq<Block>, itable: seq<Block>,
                 ghost dinodes: map<nat, Dinode>)
      requires |blocks| == nblocks < 0x1_0000_0000 && nblocks <= 8 * |bits|
      requires forall i :: i in dinodes ==>
                 0 <= i && i / IPB < |itable| && GetInode(itable[i / IPB], i % IPB) == dinodes[i]
      ensures Valid() && this.nblocks == nblocks && this.bmapstart == bmapstart && this.inodestart == inodestart
      ensures this.bits == bits && this.blocks == blocks && this.itable == itable && this.dinodes == dinodes
      ensures niblocks == |itable| && logged == {}
    {
      this.nblocks, this.bmapstart, this.inodestart, this.niblocks := nblocks, bmapstart, inodestart, |itable|;
      this.bits, this.blocks, this.itable := bits, blocks, itable;
      this.dinodes, logged := dinodes, {};
    }

    ghost predicate Valid()
      reads this
    {
      && |blocks| == nblocks < 0x1_0000_0000
      && nblocks <= 8 * |bits|
      && |itable| == niblocks && TableOk()
    }

    /* `itable` holds the inode blocks, from inodestart on; `dinodes` says what their bytes
       mean. */
    ghost predicate TableOk()
      requires |itable| == niblocks
      reads this`itable, this`dinodes
    {
      forall i :: i in dinodes ==> InTable(i) && GetInode(itable[i / IPB], i % IPB) == dinodes[i]
    }

    predicate InTable(inum: nat) {
      inum / IPB < niblocks
    }

    /* The bitmap blocks and the inode blocks are different blocks, and all of them metadata:
       no data block is one of them. */
    ghost predicate LaidOut(meta: set<nat>) {
      && (forall b: nat :: b < nblocks ==> BBlock(b) in meta)
      && (forall i: nat :: InTable(i) ==> IBlock(i) in meta)
      && (forall b: nat, i: nat :: b < nblocks && InTable(i) ==> BBlock(b) != IBlock(i))
    }

    lemma Listed(inum: nat)
      requires Valid() && inum in dinodes
      ensures InTable(inum)
    {
    }

    ghost function Used(): set<nat>
      requires Valid()
      reads this
    {
      UsedSet(bits, nblocks)
    }

    /* The bitmap block with the bit of b. */
    function BBlock(b: nat): nat {
      b / BPB + bmapstart
    }

    /* The inode block with inode inum. */
    function IBlock(inum: nat): nat {
      inum / IPB + inodestart
    }

    /* Bitmap block k holds the bits of BPB blocks, and inode block k IPB inodes. */
    lemma WhichBlock(b: nat, inum: nat, k: nat)
      ensures BBlock(b) == bmapstart + k <==> BPB * k <= b < BPB * k + BPB
      ensures IBlock(inum) == inodestart + k <==> IPB * k <= inum < IPB * k + IPB
    {
    }

    ghost function BBlocks(bs: set<nat>): set<nat> {
      set b | b in bs :: BBlock(b)
    }

    /* The two loops of balloc: the lowest block whose bit is clear. */
    method LowestFree() returns (r: nat, found: bool)
      requires Valid()
      ensures found ==> r < nblocks && r !in Used() && forall c :: 0 <= c < r ==> c in Used()
      ensures !found ==> AllUsed()
    {
      hide Test;
      ghost var used0 := UsedSet(bits, nblocks);
      var b := 0;
      while b < nblocks
        invariant b % BPB == 0
        invariant forall c: nat :: c < b && c < nblocks ==> c in used0
      {
        var bi := 0;
        while bi < BPB && b + bi < nblocks
          invariant 0 <= bi <= BPB
          invariant forall c: nat :: c < b + bi && c < nblocks ==> c in used0
        {
          SameBlockAndBit(b, bi);
          if !Test(bits[(b + bi) / 8], bi % 8) {
            return b + bi, true;
          }
          bi := bi + 1;
        }
        b := b + BPB;
      }
      return 0, false;
    }

    /* balloc: the lowest free block, marked and zeroed; ok is false where it panics. */
    method Balloc() returns (r: nat, ok: bool)
      requires Valid()
      modifies this`bits, this`blocks, this`logged
      ensures Valid()
      ensures ok ==> r < nblocks && r !in old(Used()) && Used() == old(Used()) + {r}
      ensures ok ==> forall c :: 0 <= c < r ==> c in old(Used())
      ensures ok ==> blocks == old(blocks)[r := ZeroBlock()] && logged == old(logged) + {BBlock(r), r}
      ensures !ok ==> Short(old(Used()), 1)
      ensures !ok ==> bits == old(bits) && blocks == old(blocks) && logged == old(logged)
    {
      hide Test;
      hide Or;
      r, ok := LowestFree();
      if !ok {
        ShortNow();
        return 0, false;
      }
      UsedAfter(bits, nblocks, r);
      bits := bits[r / 8 := Or(bits[r / 8], r % 8)];
      logged := logged + {BBlock(r)};
      blocks := blocks[r := ZeroBlock()];
      logged := logged + {r};
    }

    /* bfree; ok is false where it panics with "freeing free block". */
    method Bfree(b: nat) returns (ok: bool)
      requires Valid() && b < nblocks
      modifies this`bits, this`logged
      ensures Valid()
      ensures ok <==> b in old(Used())
      ensures ok ==> Used() == old(Used()) - {b} && logged == old(logged) + {BBlock(b)}
      ensures !ok ==> bits == old(bits) && logged == old(logged)
    {
      hide Test;
      hide AndNot;
      if !Test(bits[b / 8], b % 8) {
        return false;
      }
      UsedAfter(bits, nblocks, b);
      bits := bits[b / 8 := AndNot(bits[b / 8], b % 8)];
      logged := logged + {BBlock(b)};
      return true;
    }

    /* iupdate: store the fields of the in-memory inode at their places in its inode block;
       read back, that block has changed at this inode only. */
    method Iupdate(ip: Inode)
      requires Valid() && InTable(ip.inum) && AddrsOk(ip.addrs, nblocks) && ip.size < 0x1_0000_0000
      modifies this`itable, this`dinodes, this`logged
      ensures Valid() && Stored(old(itable), itable, ip.inum, ip.Record())
      ensures dinodes == old(dinodes)[ip.inum := ip.Record()]
      ensures logged == old(logged) + {IBlock(ip.inum)}
    {
      hide GetInode;
      hide HoldsWords;
      var at, k := ip.inum / IPB, ip.inum % IPB;
      var data := StoreInode(itable[at], k, ip);
      StoredOne(itable, ip.inum, data, ip.Record());
      itable := itable[at := data];
      dinodes := dinodes[ip.inum := ip.Record()];
      logged := logged + {IBlock(ip.inum)};
    }

    /* The assignments and the copying of the addresses in iupdate. */
    method StoreInode(block: Block, k: nat, ip: Inode) returns (data: Block)
      requires k < IPB && AddrsOk(ip.addrs, nblocks) && nblocks < 0x1_0000_0000 && ip.size < 0x1_0000_0000
      ensures HoldsWords(block, data, k, Words(ip.Record()))
    {
      hide SetEntry;
      hide HoldsWords;
      ghost var ws := Words(ip.Record());
      var w, v := ip.typ + 0x1_0000 * ip.major, ip.minor + 0x1_0000 * ip.nlink;
      NoWords(block, k);
      NextWord(block, block, k, [], w);
      data := SetEntry(block, IWORDS * k, w);
      NextWord(block, data, k, [] + [w], v);
      data := SetEntry(data, IWORDS * k + 1, v);
      NextWord(block, data, k, [] + [w] + [v], ip.size);
      data := SetEntry(data, IWORDS * k + 2, ip.size);
      assert [] + [w] + [v] + [ip.size] == ws[..3];
      var i := 0;
      while i < NDIRECT + 1
        invariant 0 <= i <= NDIRECT + 1 && HoldsWords(block, data, k, ws[..3 + i])
      {
        NextWord(block, data, k, ws[..3 + i], ip.addrs[i]);
        data := SetEntry(data, IWORDS * k + 3 + i, ip.addrs[i]);
        assert ws[..3 + i] + [ip.addrs[i]] == ws[..3 + (i + 1)];
        i := i + 1;
      }
      assert ws[..IWORDS] == ws;
    }

    /* ilock of an inode that is not in memory yet; false where it panics.  With iupdate it
       makes a round trip: what was stored is what is read. */
    method Ilock(ip: Inode) returns (ok: bool)
      requires Valid() && ip.inum in dinodes
      modifies ip
      ensures ip.Record() == dinodes[ip.inum] && ok == (ip.typ != 0)
    {
      var dip := GetInode(itable[ip.inum / IPB], ip.inum % IPB);
      ip.typ, ip.major, ip.minor, ip.nlink := dip.typ, dip.major, dip.minor, dip.nlink;
      ip.size, ip.addrs := dip.size, dip.addrs;
      return ip.typ != 0;
    }

    ghost function Map(ip: Inode): (m: seq<nat>)
      requires Valid() && AddrsOk(ip.addrs, nblocks)
      reads this, ip
    {
      Table(ip.addrs, blocks)
    }

    /* ip's blocks and `others`, those owned by metadata and other inodes, are all distinct
       and are exactly what the bitmap marks. */
    ghost predicate FileOk(ip: Inode, others: set<nat>)
      requires Valid()
      reads this, ip
    {
      && AddrsOk(ip.addrs, nblocks) && InRange(Map(ip), nblocks)
      && Ownership(Map(ip), ip.addrs[NDIRECT], Used(), others)
    }

    /* Blocks in use before keep their contents, except the indirect block `ind`. */
    twostate predicate Frame(ind: int)
      requires old(Valid()) && Valid()
      reads this
    {
      forall b :: b in old(Used()) && b != ind ==> b < nblocks && b in Used() && blocks[b] == old(blocks)[b]
    }

    /* The direct half of bmap. */
    method BmapDirect(ip: Inode, bn: nat, ghost others: set<nat>) returns (addr: nat, ok: bool)
      requires Valid() && FileOk(ip, others) && bn < NDIRECT
      modifies this`bits, this`blocks, this`logged, ip`addrs
      ensures Valid()
      ensures !ok ==> Short(old(Used()), 1)
      ensures ok ==> FileOk(ip, others) && addr != 0 && Map(ip) == old(Map(ip))[bn := addr]
      ensures ok ==> ip.addrs[NDIRECT] == old(ip.addrs[NDIRECT]) && Frame(-1)
      ensures old(Map(ip))[bn] != 0 ==> ok && Same(ip)
      ensures ok && old(Map(ip))[bn] == 0 ==> addr < nblocks && blocks[addr] == ZeroBlock() && addr !in old(Used())
      ensures ok && old(Map(ip))[bn] == 0 ==>
                Used() == old(Used()) + {addr} && logged == old(logged) + {BBlock(addr), addr}
    {
      hide Short;
      addr := ip.addrs[bn];
      if addr == 0 {
        var b, ok' := Balloc();
        if !ok' {
          return 0, false;
        }
        ghost var m, ind := Table(ip.addrs, old(blocks)), ip.addrs[NDIRECT];
        assert b != 0 && (ind != 0 ==> b != ind);
        MapFrame(ip.addrs, old(blocks), b, ZeroBlock());
        MapSetDirect(ip.addrs, blocks, bn, b);
        OwnMapped(m, ind, old(Used()), others, bn, b);
        ip.addrs := ip.addrs[bn := b];
        return b, true;
      }
      return addr, true;
    }

    ghost predicate AllUsed()
      requires Valid()
      reads this
    {
      forall c :: 0 <= c < nblocks ==> c in Used()
    }

    /* Every block is in use, and fewer than `need` of them were free when `used` was the set
       of blocks in use. */
    ghost predicate Short(used: set<nat>, need: int)
      requires Valid()
      reads this
    {
      AllUsed() && used <= Used() && |Used() - used| < need
    }

    /* The blocks that are not in use. */
    ghost function Free(): (r: set<nat>)
      requires Valid()
      reads this
      ensures forall b :: b in r <==> 0 <= b < nblocks && b !in Used()
    {
      set b | 0 <= b < nblocks && b !in Used()
    }

    lemma ShortNow()
      requires Valid() && AllUsed()
      ensures Short(Used(), 1)
    {
      assert Used() - Used() == {};
    }

    lemma ShortByOne(used: set<nat>, b: nat)
      requires Valid() && Short(used + {b}, 1) && b !in used
      ensures Short(used, 2)
    {
      assert Used() - (used + {b}) == {};
      assert Used() - used == {b};
    }

    twostate predicate Same(ip: Inode)
      reads this, ip
    {
      bits == old(bits) && blocks == old(blocks) && logged == old(logged) && ip.addrs == old(ip.addrs)
    }

    /* bmap: the indirect block, allocated if there is none yet. */
    method Indirect(ip: Inode, ghost others: set<nat>) returns (ind: nat, ok: bool)
      requires Valid() && FileOk(ip, others)
      modifies this`bits, this`blocks, this`logged, ip`addrs
      ensures Valid()
      ensures !ok ==> Short(old(Used()), 1)
      ensures ok ==> FileOk(ip, others) && ind == ip.addrs[NDIRECT] != 0 && Map(ip) == old(Map(ip)) && Frame(-1)
      ensures old(ip.addrs[NDIRECT]) != 0 ==> ok && Same(ip)
      ensures ok && old(ip.addrs[NDIRECT]) == 0 ==> ind !in old(Used())
      ensures ok && old(ip.addrs[NDIRECT]) == 0 ==>
                Used() == old(Used()) + {ind} && logged == old(logged) + {BBlock(ind), ind}
    {
      hide Short;
      ind := ip.addrs[NDIRECT];
      if ind == 0 {
        var b, ok' := Balloc();
        if !ok' {
          return 0, false;
        }
        MapFrame(ip.addrs, old(blocks), b, ZeroBlock());
        MapSetIndirect(ip.addrs, blocks, b);
        OwnIndirect(Table(ip.addrs, old(blocks)), old(Used()), others, b);
        ip.addrs := ip.addrs[NDIRECT := b];
        return b, true;
      }
      return ind, true;
    }

    /* bmap: entry bn of the indirect block, allocated if it is empty. */
    method BmapEntry(ip: Inode, bn: nat, ghost others: set<nat>) returns (addr: nat, ok: bool)
      requires Valid() && FileOk(ip, others) && NDIRECT <= bn < MAXFILE && ip.addrs[NDIRECT] != 0
      modifies this`bits, this`blocks, this`logged
      ensures Valid()
      ensures !ok ==> Short(old(Used()), 1)
      ensures ok ==> FileOk(ip, others) && addr != 0 && Map(ip) == old(Map(ip))[bn := addr] && Frame(ip.addrs[NDIRECT])
      ensures old(Map(ip))[bn] != 0 ==> ok && Same(ip)
      ensures ok && old(Map(ip))[bn] == 0 ==> addr < nblocks && blocks[addr] == ZeroBlock() && addr !in old(Used())
      ensures ok && old(Map(ip))[bn] == 0 ==>
                Used() == old(Used()) + {addr} && logged == old(logged) + {BBlock(addr), addr, ip.addrs[NDIRECT]}
    {
      hide Short;
      var ind := ip.addrs[NDIRECT];
      addr := Entry(blocks[ind], bn - NDIRECT);
      if addr == 0 {
        var b, ok' := Balloc();
        if !ok' {
          return 0, false;
        }
        assert b != ind && b != 0;
        MapFrame(ip.addrs, old(blocks), b, ZeroBlock());
        MapSetEntry(ip.addrs, blocks, bn, b);
        OwnMapped(Table(ip.addrs, old(blocks)), ind, old(Used()), others, bn, b);
        blocks := blocks[ind := SetEntry(blocks[ind], bn - NDIRECT, b)];
        logged := logged + {ind};
        return b, true;
      }
      return addr, true;
    }

    /* What bmap does to the rest of the file system when file block bn was not mapped. */
    twostate predicate Extended(ip: Inode, bn: nat, addr: nat)
      requires old(Valid()) && Valid() && old(AddrsOk(ip.addrs, nblocks)) && AddrsOk(ip.addrs, nblocks)
      reads this, ip
    {
      && addr < nblocks && blocks[addr] == ZeroBlock()
      && Accounts(bn, addr, old(ip.addrs[NDIRECT]), ip.addrs[NDIRECT], old(Used()), Used(), old(logged), logged)
    }

    /* The same on values: the blocks in use, the indirect block and the blocks logged. */
    ghost predicate Accounts(bn: nat, addr: nat, ind: nat, ind': nat, used: set<nat>, used': set<nat>, lg: set<nat>,
                             lg': set<nat>) {
      && addr !in used && used <= used'
      && (ind != 0 || bn < NDIRECT ==> ind' == ind)
      && (bn >= NDIRECT ==> ind' != 0)
      && (ind == 0 && bn >= NDIRECT ==> ind' !in used)
      && lg' == lg + BBlocks(used' - used) + {addr} + (if bn < NDIRECT then {} else {ind'})
      && |used' - used| == if ind == 0 && bn >= NDIRECT then 2 else 1
    }

    /* An entry of the indirect block, which was there or is new itself. */
    lemma AccountsIndirect(bn: nat, addr: nat, ind: nat, ind': nat, used: set<nat>, used1: set<nat>, lg: set<nat>,
                           lg1: set<nat>)
      requires bn >= NDIRECT && ind' != 0 && addr !in used1
      requires if ind == 0 then ind' !in used && used1 == used + {ind'} && lg1 == lg + {BBlock(ind'), ind'}
               else ind' == ind && used1 == used && lg1 == lg
      ensures Accounts(bn, addr, ind, ind', used, used1 + {addr}, lg, lg1 + {BBlock(addr), addr, ind'})
    {
      if ind == 0 {
        TwoNew(used, ind', addr, lg);
      } else {
        OneNew(used, addr, lg, ind);
      }
    }

    /* One newly allocated block. */
    lemma OneNew(used0: set<nat>, addr: nat, lg: set<nat>, ind: nat)
      requires addr !in used0
      ensures var added := (used0 + {addr}) - used0;
              && added == {addr} && |added| == 1
              && lg + {BBlock(addr), addr} == lg + BBlocks(added) + {addr} + {}
              && lg + {BBlock(addr), addr, ind} == lg + BBlocks(added) + {addr} + {ind}
    {
      assert (used0 + {addr}) - used0 == {addr};
      assert BBlocks({addr}) == {BBlock(addr)};
    }

    /* A newly allocated block and a newly allocated indirect block. */
    lemma TwoNew(used0: set<nat>, ind: nat, addr: nat, lg: set<nat>)
      requires ind !in used0 && addr !in used0 + {ind}
      ensures var added := (used0 + {ind} + {addr}) - used0;
              && added == {ind, addr} && |added| == 2
              && lg + {BBlock(ind), ind} + {BBlock(addr), addr, ind} == lg + BBlocks(added) + {addr} + {ind}
    {
      var added := (used0 + {ind} + {addr}) - used0;
      assert added == {ind, addr};
      assert BBlocks(added) == {BBlock(ind), BBlock(addr)} by {
        assert forall x :: x in BBlocks(added) <==> x in {BBlock(ind), BBlock(addr)};
      }
    }

    /* The indirect half of bmap. */
    method BmapIndirect(ip: Inode, bn: nat, ghost others: set<nat>) returns (addr: nat, ok: bool)
      requires Valid() && FileOk(ip, others) && NDIRECT <= bn < MAXFILE
      modifies this`bits, this`blocks, this`logged, ip`addrs
      ensures Valid()
      ensures !ok ==> Short(old(Used()), if old(ip.addrs[NDIRECT]) == 0 then 2 else 1)
      ensures ok ==> FileOk(ip, others) && addr != 0 && Map(ip) == old(Map(ip))[bn := addr] && Frame(ip.addrs[NDIRECT])
      ensures old(Map(ip))[bn] != 0 ==> ok && Same(ip)
      ensures ok && old(Map(ip))[bn] == 0 ==> Extended(ip, bn, addr)
    {
      hide UsedSet;
      hide Ownership;
      hide BBlock;
      hide BBlocks;
      hide Accounts;
      hide InRange;
      hide Entry;
      assert old(Map(ip))[bn] != 0 ==> ip.addrs[NDIRECT] != 0;
      var ind, ok' := Indirect(ip, others);
      if !ok' {
        return 0, false;
      }
      ghost var used1, lg1 := Used(), logged;
      addr, ok := BmapEntry(ip, bn, others);
      if !ok && old(ip.addrs[NDIRECT]) == 0 {
        ShortByOne(old(Used()), ind);
      }
      if ok && old(Map(ip))[bn] == 0 {
        AccountsIndirect(bn, addr, old(ip.addrs[NDIRECT]), ind, old(Used()), used1, old(logged), lg1);
      }
    }

    /* bmap; ok is false where balloc panics.  The table changes at bn at most, and only
       where it had no block. */
    method Bmap(ip: Inode, bn: nat, ghost others: set<nat>) returns (addr: nat, ok: bool)
      requires Valid() && FileOk(ip, others) && bn < MAXFILE
      modifies this`bits, this`blocks, this`logged, ip`addrs
      ensures Valid()
      ensures !ok ==> Short(old(Used()), if old(ip.addrs[NDIRECT]) == 0 && bn >= NDIRECT then 2 else 1)
      ensures ok ==> FileOk(ip, others) && addr != 0 && Map(ip) == old(Map(ip))[bn := addr]
      ensures ok ==> Frame(if bn < NDIRECT then -1 else ip.addrs[NDIRECT])
      ensures old(Map(ip))[bn] != 0 ==> ok && Same(ip)
      ensures ok && old(Map(ip))[bn] == 0 ==> Extended(ip, bn, addr)
    {
      hide UsedSet;
      hide Ownership;
      if bn < NDIRECT {
        addr, ok := BmapDirect(ip, bn, others);
        if ok && old(Map(ip))[bn] == 0 {
          OneNew(old(Used()), addr, old(logged), 0);
        }
      } else {
        addr, ok := BmapIndirect(ip, bn, others);
      }
    }
  }
}
