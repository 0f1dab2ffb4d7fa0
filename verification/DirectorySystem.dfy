/**
Names and link counts in a file system of any number of files (sysfile.c): adding and
removing a directory entry, link(2) with its way back, and unlink(2).  Each keeps the
ownership of every block and the bytes of every file but the directory it changes.
*/
module DirectorySystem {
  import opened InodeMap
  import opened FileSystem
  import opened FileIo
  import opened SystemOwnership
  import opened Directory
  import opened DirectoryCode

  /* dp is a locked inode whose file is a directory. */
  ghost predicate LockedDir(fs: Fs, dp: Inode, meta: set<nat>)
    reads fs, dp
  {
    SystemOk(fs, meta) && Locked(fs, dp) && DirOk(FileBytes(fs.dinodes[dp.inum], fs.blocks))
  }

  ghost function DirBytes(fs: Fs, dp: Inode, meta: set<nat>): seq<byte>
    requires SystemOk(fs, meta) && Locked(fs, dp)
    reads fs, dp
  {
    FileBytes(fs.dinodes[dp.inum], fs.blocks)
  }

  /* The map of names c' is c with the name n added, or without it. */
  ghost predicate Gains(c: seq<byte>, c': seq<byte>, n: seq<byte>, inum: nat) {
    forall m, i :: Has(c', m, i) <==> Has(c, m, i) || (m == n && i == inum)
  }

  ghost predicate Loses(c: seq<byte>, c': seq<byte>, n: seq<byte>) {
    forall m, i :: Has(c', m, i) <==> Has(c, m, i) && m != n
  }

  /* Taking away the name that was added gives the map of before. */
  lemma LinkThenUnlink(c: seq<byte>, c1: seq<byte>, c2: seq<byte>, n: seq<byte>, inum: nat)
    requires !HasName(c, n) && Gains(c, c1, n, inum) && Loses(c1, c2, n)
    ensures forall m, i :: Has(c2, m, i) <==> Has(c, m, i)
  {
    hide Named;
    NoName(c, n);
  }

  lemma NoName(c: seq<byte>, n: seq<byte>)
    requires !HasName(c, n)
    ensures forall i :: !Has(c, n, i)
  {
  }

  /* dirlink in the whole system. */
  method AddName(fs: Fs, dp: Inode, name: seq<byte>, inum: nat, ghost meta: set<nat>) returns (r: int, ok: bool)
    requires LockedDir(fs, dp, meta) && 0 < inum < 0x1_0000
    modifies fs`bits, fs`blocks, fs`logged, fs`itable, fs`dinodes, dp`addrs, dp`size
    ensures ok ==> LockedDir(fs, dp, meta) && r in {0, -1} && OnlyInode(old(fs.dinodes), fs.dinodes, dp.inum)
    ensures ok ==> OthersIntact(old(fs.dinodes), old(fs.blocks), fs.dinodes, fs.blocks, dp.inum)
    ensures ok ==> (r == -1 <==> HasName(old(DirBytes(fs, dp, meta)), Name(name)))
    ensures ok && r == -1 ==> Untouched(fs, dp)
    ensures ok && r == 0 ==> Gains(old(DirBytes(fs, dp, meta)), DirBytes(fs, dp, meta), Name(name), inum)
    ensures fs.Valid()
    ensures !ok <==>
              && !HasName(old(DirBytes(fs, dp, meta)), Name(name))
              && NoRoom(old(DirBytes(fs, dp, meta)), |old(fs.Free())|)
  {
    hide Shape;
    hide Disjoint;
    hide Reachable;
    hide NoRoom;
    hide Fs.Free;
    hide Fs.LaidOut;
    hide InodeOk;
    hide HasName;
    hide Has;
    hide Name;
    hide Kept;
    hide OnlyInode;
    hide Fs.Valid;
    hide Fs.AllUsed;
    hide DirOk;
    ghost var d0, b0, used0 := fs.dinodes, fs.blocks, fs.Used();
    Enter(fs, dp, meta);
    r, ok := Dirlink(fs, dp, name, inum, Rest(d0, b0, used0, dp.inum));
    if ok {
      Leave(fs, dp, d0, b0, used0, meta);
    }
  }

  /* The slot clearing of unlink in the whole system. */
  method RemoveName(fs: Fs, dp: Inode, poff: nat, ghost name: seq<byte>, ghost meta: set<nat>) returns (ok: bool)
    requires LockedDir(fs, dp, meta) && poff % ENTRY == 0 && Named(DirBytes(fs, dp, meta), poff / ENTRY, name)
    modifies fs`bits, fs`blocks, fs`logged, fs`itable, fs`dinodes, dp`addrs, dp`size
    ensures ok && LockedDir(fs, dp, meta) && OnlyInode(old(fs.dinodes), fs.dinodes, dp.inum)
    ensures OthersIntact(old(fs.dinodes), old(fs.blocks), fs.dinodes, fs.blocks, dp.inum)
    ensures Loses(old(DirBytes(fs, dp, meta)), DirBytes(fs, dp, meta), name)
  {
    hide Shape;
    hide Disjoint;
    hide Reachable;
    hide InodeOk;
    hide HasName;
    hide Has;
    hide Kept;
    hide OnlyInode;
    hide Fs.Valid;
    hide DirOk;
    ghost var d0, b0, used0 := fs.dinodes, fs.blocks, fs.Used();
    Enter(fs, dp, meta);
    ok := ClearSlot(fs, dp, poff, name, Rest(d0, b0, used0, dp.inum));
    Leave(fs, dp, d0, b0, used0, meta);
  }

  // ----- link counts

  /* ip.nlink := n and iupdate. */
  method SetLinks(fs: Fs, ip: Inode, n: short, ghost meta: set<nat>)
    requires SystemOk(fs, meta) && Locked(fs, ip)
    modifies fs`logged, fs`itable, fs`dinodes, ip`nlink
    ensures SystemOk(fs, meta) && Locked(fs, ip) && ip.nlink == n
    ensures fs.dinodes == old(fs.dinodes)[ip.inum := old(fs.dinodes)[ip.inum].(nlink := n)]
    ensures SameFiles(old(fs.dinodes), fs.dinodes, fs.blocks) && fs.Free() == old(fs.Free())
  {
    hide Disjoint;
    hide Reachable;
    hide Ownership;
    hide Mapped;
    hide Injective;
    hide UsedSet;
    hide Stored;
    hide Fs.TableOk;
    ghost var d0, b0, used0 := fs.dinodes, fs.blocks, fs.Used();
    Enter(fs, ip, meta);
    ip.nlink := n;
    fs.Listed(ip.inum);
    fs.Iupdate(ip);
    Leave(fs, ip, d0, b0, used0, meta);
  }

  /* Every file has the bytes it had. */
  ghost predicate SameFiles(d0: map<nat, Dinode>, d1: map<nat, Dinode>, blocks: seq<Block>)
    requires Shapes(d0, blocks) && Shapes(d1, blocks)
  {
    d1.Keys == d0.Keys && forall j :: j in d0 ==> FileBytes(d1[j], blocks) == FileBytes(d0[j], blocks)
  }

  /* A 16-bit counter, one up or one down. */
  function Up(n: short): (r: short)
    ensures r == if n == 0xffff then 0 else n + 1
  {
    (n + 1) % 0x1_0000
  }

  function Down(n: short): (r: short)
    ensures r == (n - 1) % 0x1_0000
  {
    (n + 0xffff) % 0x1_0000
  }

  /* link(2) once both inodes are found; `target` is false where nameiparent finds no
     directory.  A refused link leaves every inode and every file as it was, the count of
     the file included; otherwise the name and the count are added together. */
  method LinkFile(fs: Fs, ip: Inode, dp: Inode, name: seq<byte>, target: bool, ghost meta: set<nat>)
    returns (r: int, ok: bool)
    requires LockedDir(fs, dp, meta) && dp.typ == T_DIR && Locked(fs, ip) && 0 < ip.inum < 0x1_0000
    modifies fs`bits, fs`blocks, fs`logged, fs`itable, fs`dinodes, dp`addrs, dp`size, ip`nlink
    ensures ok ==> LockedDir(fs, dp, meta) && Locked(fs, ip) && r in {0, -1}
    ensures ok ==> (r == 0 <==> ip.typ != T_DIR && target && !HasName(old(DirBytes(fs, dp, meta)), Name(name)))
    ensures ok && r == -1 ==> fs.dinodes == old(fs.dinodes) && fs.blocks == old(fs.blocks) && fs.bits == old(fs.bits)
    ensures ok && r == 0 ==> Gains(old(DirBytes(fs, dp, meta)), DirBytes(fs, dp, meta), Name(name), ip.inum)
    ensures ok && r == 0 ==>
              ip.nlink == (old(ip.nlink) + 1) % 0x1_0000
              && OthersIntact(old(fs.dinodes), old(fs.blocks), fs.dinodes, fs.blocks, dp.inum)
    ensures ok && r == 0 ==> forall j :: j in old(fs.dinodes) && j != dp.inum && j != ip.inum ==>
                               j in fs.dinodes && fs.dinodes[j] == old(fs.dinodes)[j]
    ensures fs.Valid()
    ensures !ok <==> && ip.typ != T_DIR && target && !HasName(old(DirBytes(fs, dp, meta)), Name(name))
                     && NoRoom(old(DirBytes(fs, dp, meta)), |old(fs.Free())|)
  {
    hide Shape;
    hide Disjoint;
    hide Reachable;
    hide NoRoom;
    hide Fs.Free;
    hide Fs.LaidOut;
    hide FileBytes;
    hide HasName;
    hide Name;
    hide Fs.Valid;
    hide Fs.AllUsed;
    hide DirOk;
    hide Gains;
    if ip.typ == T_DIR {
      return -1, true;
    }
    SetLinks(fs, ip, Up(ip.nlink), meta);
    r := -1;
    if target {
      r, ok := AddName(fs, dp, name, ip.inum, meta);
      if !ok {
        return r, false;
      }
    }
    if r < 0 {
      SetLinks(fs, ip, Down(ip.nlink), meta);
    }
    return r, true;
  }

  // ----- unlink

  /* dirlookup in the whole system. */
  method FindName(fs: Fs, dp: Inode, name: seq<byte>, ghost meta: set<nat>) returns (inum: nat, poff: nat)
    requires LockedDir(fs, dp, meta)
    modifies fs`bits, fs`blocks, fs`logged, dp`addrs
    ensures Untouched(fs, dp)
    ensures inum != 0 ==> poff % ENTRY == 0 && Named(old(DirBytes(fs, dp, meta)), poff / ENTRY, Name(name))
    ensures inum != 0 ==> Has(old(DirBytes(fs, dp, meta)), Name(name), inum)
    ensures inum == 0 <==> !HasName(old(DirBytes(fs, dp, meta)), Name(name))
    ensures inum == Lookup(old(DirBytes(fs, dp, meta)), name)
  {
    hide Lookup;
    hide Shape;
    hide Disjoint;
    hide Reachable;
    hide InodeOk;
    hide EntryName;
    hide Name;
    hide DirOk;
    Enter(fs, dp, meta);
    inum, poff := Dirlookup(fs, dp, name, Rest(fs.dinodes, fs.blocks, fs.Used(), dp.inum));
  }

  /* isdirempty in the whole system. */
  method EmptyDir(fs: Fs, dp: Inode, ghost meta: set<nat>) returns (b: bool)
    requires LockedDir(fs, dp, meta)
    modifies fs`bits, fs`blocks, fs`logged, dp`addrs
    ensures Untouched(fs, dp)
    ensures b <==> OnlyDots(old(DirBytes(fs, dp, meta)))
  {
    hide Shape;
    hide Disjoint;
    hide Reachable;
    hide InodeOk;
    hide Named;
    hide DirOk;
    Enter(fs, dp, meta);
    b := Isdirempty(fs, dp, Rest(fs.dinodes, fs.blocks, fs.Used(), dp.inum));
  }

  /* No entry but the first two is in use. */
  ghost predicate OnlyDots(c: seq<byte>) {
    forall k, name :: Named(c, k, name) ==> k < 2
  }

  /* In a directory that begins with "." and "..", that is: it has no other names. */
  lemma EmptyMeans(c: seq<byte>)
    requires DirOk(c) && Named(c, 0, Name(DOT)) && Named(c, 1, Name(DOTDOT))
    ensures OnlyDots(c) <==> forall n :: HasName(c, n) ==> n == Name(DOT) || n == Name(DOTDOT)
  {
    hide Name;
    hide EntryName;
    if OnlyDots(c) {
      forall n | HasName(c, n) ensures n == Name(DOT) || n == Name(DOTDOT) {
        var k: nat :| Named(c, k, n);
        assert k < 2;
      }
    } else {
      var k: nat, n :| Named(c, k, n) && k >= 2;
      assert HasName(c, n) && n != Name(DOT) && n != Name(DOTDOT);
    }
  }

  /* A name that is there and is not one of the two that unlink refuses. */
  ghost predicate Sought(c: seq<byte>, n: seq<byte>) {
    n != Name(DOT) && n != Name(DOTDOT) && HasName(c, n)
  }

  /* What unlink(2) removes, when it does not panic. */
  ghost predicate Removable(c: seq<byte>, n: seq<byte>, typ: short, target: seq<byte>) {
    Sought(c, n) && (typ == T_DIR ==> OnlyDots(target))
  }

  /* A 16-bit word read as a signed number. */
  function Signed(n: short): (r: int)
    ensures -0x8000 <= r < 0x8000 && (n - r) % 0x1_0000 == 0
  {
    if n < 0x8000 then n else n - 0x1_0000
  }

  /* unlink(2) in the directory dp; ip is the inode the name leads to, if it leads to any.
     ok is false where the count of ip is below 1.  So a name other than "." and ".." whose
     inode has a link, and is not a directory in use, is always removed. */
  method UnlinkFile(fs: Fs, dp: Inode, ip: Inode, name: seq<byte>, ghost meta: set<nat>) returns (r: int, ok: bool)
    requires LockedDir(fs, dp, meta) && Locked(fs, ip) && ip.inum != dp.inum
    requires forall i :: Has(DirBytes(fs, dp, meta), Name(name), i) ==> i == ip.inum
    requires ip.typ == T_DIR ==> LockedDir(fs, ip, meta)
    modifies fs`bits, fs`blocks, fs`logged, fs`itable, fs`dinodes, dp`addrs, dp`size, dp`nlink, ip`addrs, ip`nlink
    ensures !ok <==> Sought(old(DirBytes(fs, dp, meta)), Name(name)) && Signed(old(ip.nlink)) < 1
    ensures ok ==> r in {0, -1} && LockedDir(fs, dp, meta) && Locked(fs, ip)
    ensures ok ==> (r == 0 <==> Removable(old(DirBytes(fs, dp, meta)), Name(name), ip.typ, old(DirBytes(fs, ip, meta))))
    ensures Name(name) == Name(DOT) || Name(name) == Name(DOTDOT) ==> ok && r == -1
    ensures !HasName(old(DirBytes(fs, dp, meta)), Name(name)) ==> ok && r == -1
    ensures Removable(old(DirBytes(fs, dp, meta)), Name(name), ip.typ, old(DirBytes(fs, ip, meta)))
            && Signed(old(ip.nlink)) >= 1 ==>
              ok && r == 0
    ensures !ok || r == -1 ==> fs.dinodes == old(fs.dinodes) && fs.blocks == old(fs.blocks) && fs.bits == old(fs.bits)
    ensures ok && r == 0 ==> Loses(old(DirBytes(fs, dp, meta)), DirBytes(fs, dp, meta), Name(name))
    ensures ok && r == 0 ==>
              && Signed(ip.nlink) == Signed(old(ip.nlink)) - 1
              && dp.nlink == if ip.typ == T_DIR then (old(dp.nlink) - 1) % 0x1_0000 else old(dp.nlink)
    ensures ok && r == 0 ==> OthersIntact(old(fs.dinodes), old(fs.blocks), fs.dinodes, fs.blocks, dp.inum)
  {
    hide Shape;
    hide Disjoint;
    hide Reachable;
    hide FileBytes;
    hide Named;
    hide HasName;
    hide Has;
    hide Name;
    hide Fs.Valid;
    hide DirOk;
    hide Loses;
    hide OnlyDots;
    var dot := Namecmp(name, DOT);
    var dotdot := Namecmp(name, DOTDOT);
    if dot == 0 || dotdot == 0 {
      return -1, true;
    }
    var inum, off := FindName(fs, dp, name, meta);
    if inum == 0 {
      return -1, true;
    }
    if Signed(ip.nlink) < 1 {
      return -1, false;
    }
    if ip.typ == T_DIR {
      var empty := EmptyDir(fs, ip, meta);
      if !empty {
        return -1, true;
      }
    }
    RemoveAndCount(fs, dp, ip, off, Name(name), meta);
    return 0, true;
  }

  /* The name goes, and the counts of the file and, for a directory, of its parent. */
  method RemoveAndCount(fs: Fs, dp: Inode, ip: Inode, off: nat, ghost name: seq<byte>, ghost meta: set<nat>)
    requires LockedDir(fs, dp, meta) && Locked(fs, ip) && ip.inum != dp.inum
    requires off % ENTRY == 0 && Named(DirBytes(fs, dp, meta), off / ENTRY, name)
    modifies fs`bits, fs`blocks, fs`logged, fs`itable, fs`dinodes, dp`addrs, dp`size, dp`nlink, ip`nlink
    ensures LockedDir(fs, dp, meta) && Locked(fs, ip)
    ensures Loses(old(DirBytes(fs, dp, meta)), DirBytes(fs, dp, meta), name)
    ensures ip.nlink == (old(ip.nlink) - 1) % 0x1_0000
    ensures dp.nlink == if ip.typ == T_DIR then (old(dp.nlink) - 1) % 0x1_0000 else old(dp.nlink)
    ensures OthersIntact(old(fs.dinodes), old(fs.blocks), fs.dinodes, fs.blocks, dp.inum)
  {
    hide Shape;
    hide Disjoint;
    hide Reachable;
    hide FileBytes;
    hide Named;
    hide Fs.Valid;
    hide DirOk;
    hide Loses;
    var ok := RemoveName(fs, dp, off, name, meta);
    if ip.typ == T_DIR {
      SetLinks(fs, dp, Down(dp.nlink), meta);
    }
    SetLinks(fs, ip, Down(ip.nlink), meta);
  }
}
