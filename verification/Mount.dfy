/**
The file system that the kernel finds on the disk that mkfs made: the invariants that the
operations on files, directories and paths need hold from the start, exactly under the
conditions stated here.
*/
module Mount {
  import opened InodeMap
  import opened FileSystem
  import opened FileIo
  import opened SystemOwnership
  import opened Directory
  import opened Path
  import opened PathWalk
  import opened Mkfs

  /* Every inode has a place in the inode blocks. */
  predicate Placed(files: seq<Source>, niblocks: nat) {
    (|files| + 1) / IPB < niblocks
  }

  lemma LayoutOk(fs: Fs, nlog: nat, nbitmap: nat)
    requires fs.inodestart == 2 + nlog && fs.bmapstart == 2 + nlog + fs.niblocks
    requires fs.nblocks <= 8 * nbitmap * BSIZE
    ensures fs.LaidOut(Below(Nmeta(nlog, fs.niblocks, nbitmap)))
    ensures forall b: nat :: b in Below(Nmeta(nlog, fs.niblocks, nbitmap)) <==>
              b < 2 + nlog || fs.inodestart <= b < fs.inodestart + fs.niblocks
              || fs.bmapstart <= b < fs.bmapstart + nbitmap
  {
    hide Below;
    var meta := Below(Nmeta(nlog, fs.niblocks, nbitmap));
    forall b: nat | b < fs.nblocks ensures fs.BBlock(b) in meta && fs.BBlock(b) >= fs.bmapstart {
      assert b / BPB < nbitmap;
    }
    forall i: nat | fs.InTable(i) ensures fs.IBlock(i) in meta && fs.IBlock(i) < fs.bmapstart {
    }
  }

  /* What a name in the root directory leads to. */
  lemma RootLeads(files: seq<Source>, N: nat, name: seq<byte>)
    requires |files| < 0xfffe && N % ENTRY == 0 && ENTRY * (|files| + 2) <= N
    ensures var i := Lookup(Pad(RootBytes(files, |files|), N), name); i == 0 || 0 < i < |files| + 2
  {
    hide Pad;
    hide RootBytes;
    hide Inum;
    hide EntryName;
    hide Name;
    hide RootName;
    var c := Pad(RootBytes(files, |files|), N);
    LookupFromIs(c, name, 0);
    if Lookup(c, name) != 0 {
      var k: nat :| Named(c, k, Name(name)) && Inum(c, k) == Lookup(c, name);
      RootEntry(files, N, 0);
      RootEntry(files, N, k);
    }
  }

  ghost predicate Populated(dinodes: map<nat, Dinode>, blocks: seq<Block>, files: seq<Source>, N: nat) {
    && |files| < 0xfffe && Shapes(dinodes, blocks) && Holds(dinodes, blocks, files, |files|)
    && (forall i :: i in dinodes <==> 0 < i < |files| + 2)
    && N % ENTRY == 0 && ENTRY * (|files| + 2) <= N
    && FileBytes(dinodes[1], blocks) == Pad(RootBytes(files, |files|), N)
    && (DirOk(FileBytes(dinodes[1], blocks)) <==> DistinctNames(files))
  }

  /* Paths can be walked from the start exactly when the names differ. */
  lemma ClosedAtStart(dinodes: map<nat, Dinode>, blocks: seq<Block>, files: seq<Source>, N: nat)
    requires Populated(dinodes, blocks, files, N)
    ensures Closed(TreeOf(dinodes, blocks)) <==> DistinctNames(files)
  {
    hide Pad;
    hide RootBytes;
    hide DirOk;
    hide DistinctNames;
    hide Lookup;
    hide Shape;
    hide FileBytes;
    var t := TreeOf(dinodes, blocks);
    forall i | i in dinodes ensures i in t && (t[i].Dir? <==> i == 1) {
      assert i == 1 || (2 <= i < |files| + 2 && Is(dinodes[i], T_FILE));
    }
    assert t[1] == Dir(FileBytes(dinodes[1], blocks));
    forall i, name | i in t && t[i].Dir? && Lookup(t[i].c, name) != 0 ensures Lookup(t[i].c, name) in t {
      RootLeads(files, N, name);
    }
  }

  /* mkfs, and the file system the kernel then works on; none when mkfs stops or when an
     inode has no place.  It satisfies the invariant of the whole file system exactly when
     the length of the root directory was not a multiple of the block size. */
  method MakeAndMount(size: nat, nlog: nat, niblocks: nat, nbitmap: nat, files: seq<Source>) returns (fs: Fs?)
    requires Nmeta(nlog, niblocks, nbitmap) <= size < 0x1_0000_0000 && 0 < nbitmap && size <= 8 * nbitmap * BSIZE
    requires |files| < 0xfffe
    ensures fs != null <==>
              var used := Nmeta(nlog, niblocks, nbitmap) + BlocksNeeded(files, |files|);
              Placed(files, niblocks) && Small(files, |files|) && used <= size && used < 8 * BSIZE
    ensures fs != null ==>
              (SystemOk(fs, Below(Nmeta(nlog, niblocks, nbitmap))) <==> 16 * (|files| + 2) % BSIZE != 0)
    ensures fs != null && 16 * (|files| + 2) % BSIZE != 0 ==>
              var meta := Below(Nmeta(nlog, niblocks, nbitmap));
              && Holds(fs.dinodes, fs.blocks, files, |files|)
              && (Closed(TreeIn(fs, meta)) <==> DistinctNames(files))
  {
    hide Shape;
    hide Disjoint;
    hide Reachable;
    hide UsedSet;
    hide Below;
    hide FileBytes;
    hide Pad;
    hide RootBytes;
    hide DirOk;
    hide DistinctNames;
    hide Closed;
    hide TreeOf;
    hide Fs.LaidOut;
    var im, bits, ok := Make(size, nlog, niblocks, nbitmap, files);
    if !ok || !Placed(files, niblocks) {
      return null;
    }
    forall i | i in im.dinodes ensures i / IPB < niblocks {
      Monotone(i, |files| + 1);
    }
    fs := new Fs(size, 2 + nlog + niblocks, 2 + nlog, bits, im.blocks, im.itable, im.dinodes);
    LayoutOk(fs, nlog, nbitmap);
    if 16 * (|files| + 2) % BSIZE != 0 {
      Rounding(16 * (|files| + 2));
      ClosedAtStart(fs.dinodes, fs.blocks, files, RoundedUp(16 * (|files| + 2)));
    }
  }

  lemma Monotone(i: nat, j: nat)
    requires i <= j
    ensures i / IPB <= j / IPB
  {
  }

  lemma Rounding(n: nat)
    ensures RoundedUp(n) % ENTRY == 0 && n <= RoundedUp(n)
  {
  }
}
