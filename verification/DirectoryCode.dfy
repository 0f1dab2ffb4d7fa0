/**
dirlookup, dirlink, the slot clearing of unlink and isdirempty, reading and writing the
directory through readi and writei.
*/
module DirectoryCode {
  import opened InodeMap
  import opened FileSystem
  import opened FileIo
  import opened Directory

  ghost predicate DirInode(fs: Fs, dp: Inode, others: set<nat>)
    reads fs, dp
  {
    InodeOk(fs, dp, others) && DirOk(Content(fs, dp, others))
  }

  /* readi of one entry, which never falls short. */
  method ReadEntry(fs: Fs, dp: Inode, off: nat, ghost others: set<nat>) returns (de: seq<byte>)
    requires DirInode(fs, dp, others) && off % ENTRY == 0 && off < dp.size
    modifies fs`bits, fs`blocks, fs`logged, dp`addrs
    ensures Untouched(fs, dp) && DirInode(fs, dp, others)
    ensures off / ENTRY < Slots(Content(fs, dp, others)) && |de| == ENTRY
    ensures var c, k := Content(fs, dp, others), off / ENTRY;
            Inum(de, 0) == Inum(c, k) && EntryName(de, 0) == EntryName(c, k)
  {
    hide FileSystem.UsedSet;
    hide Ownership;
    hide Mapped;
    hide Prefix;
    hide Inum;
    hide EntryName;
    var r;
    Fits(|Content(fs, dp, others)|, off);
    de, r := Readi(fs, dp, off, ENTRY, others);
    EntryOf(Content(fs, dp, others), off / ENTRY);
  }

  lemma Fits(size: nat, off: nat)
    requires size % ENTRY == 0 && off % ENTRY == 0 && off < size
    ensures off + ENTRY <= size && off / ENTRY < size / ENTRY && ENTRY * (off / ENTRY) == off
    ensures (off + ENTRY) % ENTRY == 0 && (off + ENTRY) / ENTRY == off / ENTRY + 1
  {
  }

  /* dirlookup: the inode number under this name, 0 if there is none, and where it stands. */
  method Dirlookup(fs: Fs, dp: Inode, name: seq<byte>, ghost others: set<nat>) returns (inum: nat, poff: nat)
    requires DirInode(fs, dp, others)
    modifies fs`bits, fs`blocks, fs`logged, dp`addrs
    ensures Untouched(fs, dp) && DirInode(fs, dp, others)
    ensures inum != 0 ==> poff % ENTRY == 0 && Named(Content(fs, dp, others), poff / ENTRY, Name(name))
    ensures inum != 0 ==> Inum(Content(fs, dp, others), poff / ENTRY) == inum
    ensures inum == 0 ==> forall k :: !Named(Content(fs, dp, others), k, Name(name))
    ensures inum == Lookup(Content(fs, dp, others), name)
  {
    hide InodeOk;
    hide DirOk;
    hide Inum;
    hide EntryName;
    hide Name;
    hide Lookup;
    ghost var c := Content(fs, dp, others);
    var off := 0;
    while off < dp.size
      invariant DirInode(fs, dp, others) && Untouched(fs, dp) && Content(fs, dp, others) == c
      invariant off % ENTRY == 0 && off <= dp.size && forall k: nat :: k < off / ENTRY ==> !Named(c, k, Name(name))
    {
      var de := ReadEntry(fs, dp, off, others);
      NextSlot(c, off);
      var num := de[0] as int + 256 * de[1] as int;
      InumOf(de);
      if num != 0 {
        var cmp := Namecmp(name, de[2..ENTRY]);
        NameOfEntry(de);
        if cmp == 0 {
          assert Has(c, Name(name), num);
          LookupIs(c, name, num);
          return num, off;
        }
      }
      off := off + ENTRY;
    }
    AllSlots(c, off);
    LookupNone(c, name);
    return 0, 0;
  }

  lemma LookupNone(c: seq<byte>, name: seq<byte>)
    requires forall k :: !Named(c, k, Name(name))
    ensures Lookup(c, name) == 0
  {
    LookupFromIs(c, name, 0);
  }

  lemma NextSlot(c: seq<byte>, off: nat)
    requires DirOk(c) && off % ENTRY == 0 && off < |c|
    ensures off + ENTRY <= |c| && (off + ENTRY) % ENTRY == 0 && (off + ENTRY) / ENTRY == off / ENTRY + 1
  {
  }

  lemma AllSlots(c: seq<byte>, off: nat)
    requires DirOk(c) && off == |c|
    ensures off / ENTRY == Slots(c)
  {
  }

  lemma InumOf(de: seq<byte>)
    requires |de| == ENTRY
    ensures Inum(de, 0) == de[0] as int + 256 * de[1] as int
  {
  }

  lemma NameOfEntry(de: seq<byte>)
    requires |de| == ENTRY
    ensures EntryName(de, 0) == Name(de[2..ENTRY])
  {
  }

  /* The first n slots are in use. */
  predicate UsedBefore(c: seq<byte>, n: nat) {
    forall k :: 0 <= k < n ==> k < Slots(c) && Inum(c, k) != 0
  }

  /* dirlink's search for a free slot; the end of the directory if there is none. */
  method FindFree(fs: Fs, dp: Inode, ghost others: set<nat>) returns (off: nat)
    requires DirInode(fs, dp, others)
    modifies fs`bits, fs`blocks, fs`logged, dp`addrs
    ensures Untouched(fs, dp) && DirInode(fs, dp, others)
    ensures off % ENTRY == 0 && off <= dp.size
    ensures off < dp.size ==>
              off / ENTRY < Slots(Content(fs, dp, others)) && Inum(Content(fs, dp, others), off / ENTRY) == 0
    ensures UsedBefore(Content(fs, dp, others), off / ENTRY)
  {
    hide InodeOk;
    hide DirOk;
    hide Inum;
    hide EntryName;
    ghost var c := Content(fs, dp, others);
    off := 0;
    while off < dp.size
      invariant DirInode(fs, dp, others) && Untouched(fs, dp) && Content(fs, dp, others) == c
      invariant off % ENTRY == 0 && off <= dp.size && UsedBefore(c, off / ENTRY)
    {
      var de := ReadEntry(fs, dp, off, others);
      NextSlot(c, off);
      InumOf(de);
      if de[0] as int + 256 * de[1] as int == 0 {
        break;
      }
      off := off + ENTRY;
    }
  }

  lemma SlotAt(size: nat, off: nat)
    requires off % ENTRY == 0 && off <= size && size % ENTRY == 0
    ensures ENTRY * (off / ENTRY) == off && off / ENTRY <= size / ENTRY && (off < size <==> off / ENTRY < size / ENTRY)
  {
  }

  /* dirlink: refuses a name that is there, and otherwise adds it to the map; ok is false
     where it panics, which is exactly when there is no room for a new name. */
  method Dirlink(fs: Fs, dp: Inode, name: seq<byte>, inum: nat, ghost others: set<nat>) returns (r: int, ok: bool)
    requires DirInode(fs, dp, others) && 0 < inum < 0x1_0000
    modifies fs`bits, fs`blocks, fs`logged, fs`itable, fs`dinodes, dp`addrs, dp`size
    ensures ok ==> DirInode(fs, dp, others) && r in {0, -1}
    ensures ok ==> (r == -1 <==> HasName(old(Content(fs, dp, others)), Name(name)))
    ensures ok && r == -1 ==> Untouched(fs, dp)
    ensures ok && r == 0 ==> forall n, i :: Has(Content(fs, dp, others), n, i) <==>
                                            Has(old(Content(fs, dp, others)), n, i) || (n == Name(name) && i == inum)
    ensures ok && r == 0 ==> (dp.size == old(dp.size) <==> HasFree(old(Content(fs, dp, others))))
    ensures ok && r == 0 ==> dp.size in {old(dp.size), old(dp.size) + ENTRY}
    ensures ok ==> Kept(old(fs.blocks), fs.blocks, others) && OnlyInode(old(fs.dinodes), fs.dinodes, dp.inum)
    ensures fs.Valid()
    ensures !ok <==> && !HasName(old(Content(fs, dp, others)), Name(name))
                     && NoRoom(old(Content(fs, dp, others)), |old(fs.Free())|)
  {
    hide HasFree;
    hide Need;
    hide Fs.TableOk;
    hide Fs.AllUsed;
    hide UsedSet;
    hide InodeOk;
    hide Grown;
    hide WriteSet;
    hide Named;
    hide DirOk;
    hide Has;
    hide EntryBytes;
    hide Splice;
    hide Inum;
    ghost var c := Content(fs, dp, others);
    SizeOk(fs, dp, others);
    ghost var free0 := fs.Free();
    var found, poff := Dirlookup(fs, dp, name, others);
    if found != 0 {
      return -1, true;
    }
    var off := FindFree(fs, dp, others);
    WholeSlots(c);
    SlotAt(|c|, off);
    SizeAfter(c, off, EntryBytes(inum, name));
    NeedNone(|c|);
    assert fs.Free() == free0;
    var n, ok' := Writei(fs, dp, EntryBytes(inum, name), off, others);
    if !ok' {
      return -1, false;
    }
    if n != ENTRY {
      return -1, false;
    }
    LinkMaps(c, off / ENTRY, inum, name);
    SizeOk(fs, dp, others);
    return 0, true;
  }

  predicate FreeSlot(c: seq<byte>, k: nat) {
    k < Slots(c) && Inum(c, k) == 0
  }

  ghost predicate HasFree(c: seq<byte>) {
    exists k :: FreeSlot(c, k)
  }

  /* Every slot is in use, and the directory cannot grow: it has the size of the largest file,
     or too few blocks are free. */
  ghost predicate NoRoom(c: seq<byte>, free: nat) {
    !HasFree(c) && (|c| + ENTRY > MAXFILE * BSIZE || free < Need(|c|, |c| + ENTRY))
  }

  /* The directory grows only if every slot was in use. */
  lemma SizeAfter(c: seq<byte>, off: nat, e: seq<byte>)
    requires off % ENTRY == 0 && off <= |c| && |c| % ENTRY == 0 && |e| == ENTRY
    requires off < |c| ==> FreeSlot(c, off / ENTRY)
    requires UsedBefore(c, off / ENTRY)
    ensures |Splice(c, off, e)| == (if off < |c| then |c| else |c| + ENTRY)
            && (off < |c| <==> HasFree(c))
  {
    hide Inum;
    if off == |c| {
      forall k: nat ensures !FreeSlot(c, k) {
        if k < Slots(c) {
          assert k < off / ENTRY;
        }
      }
    }
  }

  lemma WholeSlots(c: seq<byte>)
    requires DirOk(c)
    ensures |c| % ENTRY == 0
  {
  }

  lemma SizeOk(fs: Fs, dp: Inode, others: set<nat>)
    requires InodeOk(fs, dp, others)
    ensures fs.Valid() && dp.size <= MAXFILE * BSIZE
  {
  }

  /* The heart of unlink: the slot that dirlookup found is overwritten with zeros. */
  method ClearSlot(fs: Fs, dp: Inode, poff: nat, ghost name: seq<byte>, ghost others: set<nat>) returns (ok: bool)
    requires DirInode(fs, dp, others) && poff % ENTRY == 0 && Named(Content(fs, dp, others), poff / ENTRY, name)
    modifies fs`bits, fs`blocks, fs`logged, fs`itable, fs`dinodes, dp`addrs, dp`size
    ensures ok && DirInode(fs, dp, others) && dp.size == old(dp.size)
    ensures forall n, i :: Has(Content(fs, dp, others), n, i) <==> Has(old(Content(fs, dp, others)), n, i) && n != name
    ensures Kept(old(fs.blocks), fs.blocks, others) && OnlyInode(old(fs.dinodes), fs.dinodes, dp.inum)
  {
    hide UsedSet;
    hide InodeOk;
    hide Grown;
    hide WriteSet;
    hide Kept;
    hide OnlyInode;
    hide DirOk;
    hide Has;
    hide Splice;
    hide EntryName;
    hide Inum;
    ghost var c := Content(fs, dp, others);
    SizeOk(fs, dp, others);
    WholeSlots(c);
    SlotBounds(|c|, poff);
    UnlinkMaps(c, poff / ENTRY, name);
    var n;
    n, ok := Writei(fs, dp, seq(ENTRY, i => 0), poff, others);
  }

  lemma SlotBounds(size: nat, off: nat)
    requires off % ENTRY == 0 && off / ENTRY < size / ENTRY && size % ENTRY == 0
    ensures ENTRY * (off / ENTRY) == off && off + ENTRY <= size
  {
  }

  /* isdirempty: no entry in use besides the first two, "." and "..". */
  method Isdirempty(fs: Fs, dp: Inode, ghost others: set<nat>) returns (b: bool)
    requires DirInode(fs, dp, others)
    modifies fs`bits, fs`blocks, fs`logged, dp`addrs
    ensures Untouched(fs, dp) && DirInode(fs, dp, others)
    ensures b <==> forall k, name :: Named(Content(fs, dp, others), k, name) ==> k < 2
  {
    hide InodeOk;
    hide DirOk;
    hide Inum;
    hide EntryName;
    ghost var c := Content(fs, dp, others);
    var off := 2 * ENTRY;
    while off < dp.size
      invariant DirInode(fs, dp, others) && Untouched(fs, dp) && Content(fs, dp, others) == c
      invariant off % ENTRY == 0 && 2 <= off / ENTRY
                && forall k: nat, name :: Named(c, k, name) && k < off / ENTRY ==> k < 2
      decreases dp.size - off
    {
      var de := ReadEntry(fs, dp, off, others);
      NextSlot(c, off);
      InumOf(de);
      if de[0] as int + 256 * de[1] as int != 0 {
        assert Named(c, off / ENTRY, EntryName(c, off / ENTRY));
        return false;
      }
      off := off + ENTRY;
    }
    SlotsBelow(c, off);
    return true;
  }

  lemma SlotsBelow(c: seq<byte>, off: nat)
    requires off % ENTRY == 0 && off >= |c|
    ensures Slots(c) <= off / ENTRY
  {
  }
}
