/**
Block ownership over the whole file system: the bitmap marks exactly the metadata blocks
and the blocks reachable from the inodes, and no block has two owners.  Writing and
truncating one file keep this and leave the contents of every other file alone.
*/
module SystemOwnership {
  import opened InodeMap
  import opened FileSystem
  import opened FileIo
  import opened FileWrite
  import opened Truncate

  /* One inode taken by itself: addresses in range, no block twice, no holes. */
  ghost predicate Shape(d: Dinode, blocks: seq<Block>) {
    && AddrsOk(d.addrs, |blocks|)
    && InRange(Table(d.addrs, blocks), |blocks|)
    && Injective(Table(d.addrs, blocks), d.addrs[NDIRECT])
    && d.size <= MAXFILE * BSIZE
    && Mapped(Table(d.addrs, blocks), d.addrs[NDIRECT], BlocksFor(d.size))
  }

  ghost function OwnedBy(d: Dinode, blocks: seq<Block>): set<nat>
    requires Shape(d, blocks)
  {
    Owned(Table(d.addrs, blocks), d.addrs[NDIRECT])
  }

  ghost function FileBytes(d: Dinode, blocks: seq<Block>): seq<byte>
    requires Shape(d, blocks)
  {
    Bytes(Table(d.addrs, blocks), blocks, d.size)
  }

  ghost predicate Shapes(dinodes: map<nat, Dinode>, blocks: seq<Block>) {
    forall i :: i in dinodes ==> Shape(dinodes[i], blocks)
  }

  ghost predicate Disjoint(dinodes: map<nat, Dinode>, blocks: seq<Block>)
    requires Shapes(dinodes, blocks)
  {
    forall i, j :: i in dinodes && j in dinodes && i != j ==> OwnedBy(dinodes[i], blocks) !! OwnedBy(dinodes[j], blocks)
  }

  /* Block b belongs to some file. */
  ghost predicate Reachable(dinodes: map<nat, Dinode>, blocks: seq<Block>, b: nat)
    requires Shapes(dinodes, blocks)
  {
    exists i :: i in dinodes && b in OwnedBy(dinodes[i], blocks)
  }

  /* The invariant of the whole file system. */
  ghost predicate System(dinodes: map<nat, Dinode>, blocks: seq<Block>, used: set<nat>, meta: set<nat>) {
    && Shapes(dinodes, blocks) && Disjoint(dinodes, blocks) && 0 in meta
    && (forall b :: b in used <==> b in meta || Reachable(dinodes, blocks, b))
    && (forall b :: b in meta ==> !Reachable(dinodes, blocks, b))
  }

  /* What the bitmap marks besides the blocks of one file. */
  ghost function Rest(dinodes: map<nat, Dinode>, blocks: seq<Block>, used: set<nat>, inum: nat): set<nat>
    requires inum in dinodes && Shape(dinodes[inum], blocks)
  {
    used - OwnedBy(dinodes[inum], blocks)
  }

  /* The whole-system invariant seen from one file. */
  lemma OneFile(dinodes: map<nat, Dinode>, blocks: seq<Block>, used: set<nat>, meta: set<nat>, inum: nat)
    requires System(dinodes, blocks, used, meta) && inum in dinodes
    ensures var d := dinodes[inum];
            Ownership(Table(d.addrs, blocks), d.addrs[NDIRECT], used, Rest(dinodes, blocks, used, inum))
    ensures meta <= Rest(dinodes, blocks, used, inum)
    ensures forall j :: j in dinodes && j != inum ==> OwnedBy(dinodes[j], blocks) <= Rest(dinodes, blocks, used, inum)
  {
    hide Injective;
    hide InRange;
    hide Mapped;
    var own := OwnedBy(dinodes[inum], blocks);
    assert own <= used by {
      forall b | b in own ensures b in used { assert Reachable(dinodes, blocks, b); }
    }
    forall b | b in own ensures b !in meta {
      assert Reachable(dinodes, blocks, b);
    }
    forall j, b | j in dinodes && j != inum && b in OwnedBy(dinodes[j], blocks) ensures b in used - own {
      assert Reachable(dinodes, blocks, b);
    }
  }

  /* A file whose blocks keep their contents keeps its map, its blocks and its bytes. */
  lemma Undisturbed(d: Dinode, blocks: seq<Block>, blocks': seq<Block>, others: set<nat>)
    requires Shape(d, blocks) && OwnedBy(d, blocks) <= others && Kept(blocks, blocks', others)
    ensures Shape(d, blocks') && OwnedBy(d, blocks') == OwnedBy(d, blocks)
            && FileBytes(d, blocks') == FileBytes(d, blocks)
  {
    var ind := d.addrs[NDIRECT];
    assert ind != 0 ==> ind in OwnedBy(d, blocks);
    var m, m' := Table(d.addrs, blocks), Table(d.addrs, blocks');
    assert m' == m;
    forall j | 0 <= j < BlocksFor(d.size) ensures blocks'[m[j]] == blocks[m[j]] {
      assert m[j] in OwnedBy(d, blocks);
    }
    BytesKept(m, m', blocks, blocks', d.size);
  }

  /* One file's step from inside keeps the invariant of the whole, and every other file. */
  lemma OneFileStep(d0: map<nat, Dinode>, b0: seq<Block>, used0: set<nat>, d1: map<nat, Dinode>, b1: seq<Block>,
                    used1: set<nat>,
                    meta: set<nat>, inum: nat)
    requires System(d0, b0, used0, meta) && inum in d0 && inum in d1
    requires OnlyInode(d0, d1, inum) && Kept(b0, b1, Rest(d0, b0, used0, inum)) && Shape(d1[inum], b1)
    requires Ownership(Table(d1[inum].addrs, b1), d1[inum].addrs[NDIRECT], used1, Rest(d0, b0, used0, inum))
    ensures System(d1, b1, used1, meta)
    ensures forall j :: j in d0 && j != inum ==> j in d1 && FileBytes(d1[j], b1) == FileBytes(d0[j], b0)
  {
    hide Shape;
    hide Kept;
    hide Ownership;
    hide Reachable;
    hide OwnedBy;
    hide FileBytes;
    var rest := Rest(d0, b0, used0, inum);
    OneFile(d0, b0, used0, meta, inum);
    forall j | j in d0 && j != inum
      ensures j in d1 && Shape(d1[j], b1) && OwnedBy(d1[j], b1) == OwnedBy(d0[j], b0)
              && FileBytes(d1[j], b1) == FileBytes(d0[j], b0)
    {
      Undisturbed(d0[j], b0, b1, rest);
    }
    OwnerSets(d1[inum], b1, used1, rest);
    Recount(d0, b0, used0, d1, b1, used1, meta, inum);
  }

  lemma OwnerSets(d: Dinode, blocks: seq<Block>, used: set<nat>, others: set<nat>)
    requires Shape(d, blocks) && Ownership(Table(d.addrs, blocks), d.addrs[NDIRECT], used, others)
    ensures used == OwnedBy(d, blocks) + others && OwnedBy(d, blocks) !! others
  {
  }

  lemma Recount(d0: map<nat, Dinode>, b0: seq<Block>, used0: set<nat>, d1: map<nat, Dinode>, b1: seq<Block>,
                used1: set<nat>,
                meta: set<nat>, inum: nat)
    requires System(d0, b0, used0, meta) && inum in d0 && inum in d1 && d1.Keys == d0.Keys && Shapes(d1, b1)
    requires forall j :: j in d0 && j != inum ==> OwnedBy(d1[j], b1) == OwnedBy(d0[j], b0)
    requires used1 == OwnedBy(d1[inum], b1) + Rest(d0, b0, used0, inum)
             && OwnedBy(d1[inum], b1) !! Rest(d0, b0, used0, inum)
    ensures System(d1, b1, used1, meta)
  {
    hide Shape;
    hide OwnedBy;
    OneFile(d0, b0, used0, meta, inum);
  }

  // ----- the operations on the whole system

  ghost predicate SystemOk(fs: Fs, meta: set<nat>)
    reads fs
  {
    fs.Valid() && fs.LaidOut(meta) && System(fs.dinodes, fs.blocks, fs.Used(), meta)
  }

  /* So what a write to a file logs besides its own blocks is nobody's data. */
  lemma MetaApart(fs: Fs, inum: nat, added: set<nat>, meta: set<nat>)
    requires SystemOk(fs, meta) && inum in fs.dinodes && forall b :: b in added ==> b < fs.nblocks
    ensures Layout(fs, added, inum, Rest(fs.dinodes, fs.blocks, fs.Used(), inum))
  {
    hide Shape;
    hide Disjoint;
    hide Reachable;
    hide UsedSet;
    OneFile(fs.dinodes, fs.blocks, fs.Used(), meta, inum);
    fs.Listed(inum);
  }

  /* ip is a locked inode: its copy in memory is the inode on disk. */
  ghost predicate Locked(fs: Fs, ip: Inode)
    reads fs, ip
  {
    ip.inum in fs.dinodes && fs.dinodes[ip.inum] == ip.Record()
  }

  /* Every file but inum is there with the same bytes. */
  ghost predicate OthersIntact(d0: map<nat, Dinode>, b0: seq<Block>, d1: map<nat, Dinode>, b1: seq<Block>, inum: nat)
    requires Shapes(d0, b0) && Shapes(d1, b1)
  {
    forall j :: j in d0 && j != inum ==> j in d1 && FileBytes(d1[j], b1) == FileBytes(d0[j], b0)
  }

  lemma Enter(fs: Fs, ip: Inode, meta: set<nat>)
    requires SystemOk(fs, meta) && Locked(fs, ip)
    ensures InodeOk(fs, ip, Rest(fs.dinodes, fs.blocks, fs.Used(), ip.inum))
    ensures Content(fs, ip, Rest(fs.dinodes, fs.blocks, fs.Used(), ip.inum)) == FileBytes(fs.dinodes[ip.inum],
                                                                                          fs.blocks)
  {
    hide Ownership;
    hide Mapped;
    hide Injective;
    OneFile(fs.dinodes, fs.blocks, fs.Used(), meta, ip.inum);
  }

  lemma Leave(fs: Fs, ip: Inode, d0: map<nat, Dinode>, b0: seq<Block>, used0: set<nat>, meta: set<nat>)
    requires System(d0, b0, used0, meta) && ip.inum in d0 && fs.LaidOut(meta)
    requires InodeOk(fs, ip, Rest(d0, b0, used0, ip.inum))
    requires Kept(b0, fs.blocks, Rest(d0, b0, used0, ip.inum)) && OnlyInode(d0, fs.dinodes, ip.inum)
    ensures SystemOk(fs, meta) && OthersIntact(d0, b0, fs.dinodes, fs.blocks, ip.inum)
    ensures Locked(fs, ip)
    ensures FileBytes(fs.dinodes[ip.inum], fs.blocks) == Content(fs, ip, Rest(d0, b0, used0, ip.inum))
  {
    hide Fs.LaidOut;
    hide Fs.TableOk;
    hide Kept;
    hide OnlyInode;
    OneFileStep(d0, b0, used0, fs.dinodes, fs.blocks, fs.Used(), meta, ip.inum);
  }

  /* write(2) on a file of a system with any number of files. */
  method WriteFile(fs: Fs, f: File, src: seq<byte>, ghost meta: set<nat>)
    returns (r: int, ok: bool, ghost txns: seq<set<nat>>)
    requires SystemOk(fs, meta) && Locked(fs, f.ip) && f.off < 0x8000_0000 && |src| < 0x8000_0000
    modifies fs`bits, fs`blocks, fs`logged, fs`itable, fs`dinodes, f.ip`addrs, f.ip`size, f`off
    ensures fs.Valid() && (ok ==> SystemOk(fs, meta) && Locked(fs, f.ip))
    ensures !ok ==> fs.AllUsed()
    ensures var done := Accepted(old(f.off), old(f.ip.size), |src|);
            && (!ok <==>
                  && f.writable
                  && |old(fs.Free())| < Need(old(f.ip.size), SizeWith(old(f.off), old(f.ip.size), done)))
            && (ok ==> |txns| == if f.writable then Transactions(done, |src|) else 0)
    ensures ok ==> OthersIntact(old(fs.dinodes), old(fs.blocks), fs.dinodes, fs.blocks, f.ip.inum)
    ensures ok ==> OnlyInode(old(fs.dinodes), fs.dinodes, f.ip.inum)
    ensures forall t :: t in txns ==> |t| <= MAXOPBLOCKS
    ensures ok ==>
              var done := if f.writable then Accepted(old(f.off), old(f.ip.size), |src|) else 0;
              var was := old(FileBytes(fs.dinodes[f.ip.inum], fs.blocks));
              && r == (if f.writable && done == |src| then |src| else -1)
              && f.off == old(f.off) + done
              && FileBytes(fs.dinodes[f.ip.inum],
                           fs.blocks) == (if done > 0 then Splice(was, old(f.off), src[..done]) else was)
  {
    hide Fs.LaidOut;
    hide Fs.Free;
    hide Need;
    hide Accepted;
    hide Transactions;
    hide SizeWith;
    hide Ownership;
    hide Shape;
    hide Disjoint;
    hide Reachable;
    hide InodeOk;
    hide Splice;
    hide UsedSet;
    ghost var d0, b0, used0 := fs.dinodes, fs.blocks, fs.Used();
    Enter(fs, f.ip, meta);
    r, ok, txns := Filewrite(fs, f, src, Rest(d0, b0, used0, f.ip.inum));
    if ok {
      Leave(fs, f.ip, d0, b0, used0, meta);
    }
  }

  /* What iput does when the last link and reference are gone: the file is truncated and its
     inode marked free. */
  method TruncateFile(fs: Fs, ip: Inode, ghost meta: set<nat>) returns (ok: bool)
    requires SystemOk(fs, meta) && Locked(fs, ip)
    modifies fs`bits, fs`logged, fs`itable, fs`dinodes, ip`addrs, ip`size, ip`typ
    ensures ok && SystemOk(fs, meta) && Locked(fs, ip)
    ensures OthersIntact(old(fs.dinodes), old(fs.blocks), fs.dinodes, fs.blocks, ip.inum)
    ensures OnlyInode(old(fs.dinodes), fs.dinodes, ip.inum)
    ensures FileBytes(fs.dinodes[ip.inum], fs.blocks) == []
    ensures fs.dinodes[ip.inum].typ == 0 && fs.dinodes[ip.inum].nlink == old(ip.nlink)
    ensures fs.Used() == old(fs.Used()) - old(OwnedBy(fs.dinodes[ip.inum], fs.blocks))
  {
    hide Fs.LaidOut;
    hide Fs.TableOk;
    hide Ownership;
    hide Shape;
    hide Disjoint;
    hide Reachable;
    hide UsedSet;
    ghost var d0, b0, used0 := fs.dinodes, fs.blocks, fs.Used();
    Enter(fs, ip, meta);
    fs.Listed(ip.inum);
    ok := Itrunc(fs, ip, Rest(d0, b0, used0, ip.inum));
    ip.typ := 0;
    fs.Listed(ip.inum);
    fs.Iupdate(ip);
    Leave(fs, ip, d0, b0, used0, meta);
  }
}
