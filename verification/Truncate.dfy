/**
itrunc of fs.c: every block of the file goes back to the bitmap exactly once, so the
"freeing free block" panic of bfree is out of reach.
*/
module Truncate {
  import opened InodeMap
  import opened FileSystem
  import opened FileIo

  lemma OwnCleared(m: seq<nat>, ind: nat, used: set<nat>, others: set<nat>, bn: nat)
    requires Ownership(m, ind, used, others) && bn < |m| && m[bn] != 0
    ensures m[bn] in used && Ownership(m[bn := 0], ind, used - {m[bn]}, others)
  {
    var m' := m[bn := 0];
    assert m[bn] in Owned(m, ind);
    forall i | 0 <= i < |m| && m[i] != 0 && i != bn ensures m[i] in Owned(m', ind) && m[i] != m[bn] {
      assert m'[i] == m[i];
    }
    assert Owned(m', ind) == Owned(m, ind) - {m[bn]};
  }

  lemma OwnNothing(m: seq<nat>, ind: nat, used: set<nat>, others: set<nat>)
    requires Ownership(m, ind, used, others) && ind != 0 && forall i :: 0 <= i < |m| ==> m[i] == 0
    ensures ind in used && Ownership(m, 0, used - {ind}, others)
  {
    assert Owned(m, ind) == {ind} && Owned(m, 0) == {};
  }

  /* Bitmap blocks written so far, when one more block is freed. */
  lemma FreedOne(fs: Fs, used0: set<nat>, used: set<nat>, b: nat, lg: set<nat>)
    requires used <= used0 && b in used
    ensures lg + fs.BBlocks(used0 - used) + {fs.BBlock(b)} == lg + fs.BBlocks(used0 - (used - {b}))
  {
    assert used0 - (used - {b}) == (used0 - used) + {b};
  }

  lemma FreedNone(fs: Fs, used: set<nat>, lg: set<nat>)
    ensures lg + fs.BBlocks(used - used) == lg
  {
    assert used - used == {};
  }

  /* What both halves of itrunc keep: only bitmap bits are cleared, and each is logged. */
  twostate predicate OnlyFreed(fs: Fs, ip: Inode)
    requires old(fs.Valid()) && fs.Valid()
    reads fs, ip
  {
    && fs.blocks == old(fs.blocks) && fs.dinodes == old(fs.dinodes) && ip.size == old(ip.size)
    && fs.Used() <= old(fs.Used())
    && fs.logged == old(fs.logged) + fs.BBlocks(old(fs.Used()) - fs.Used())
  }

  /* The loop over the direct blocks. */
  method FreeDirect(fs: Fs, ip: Inode, ghost others: set<nat>) returns (ok: bool)
    requires fs.Valid() && fs.FileOk(ip, others)
    modifies fs`bits, fs`logged, ip`addrs
    ensures ok && fs.Valid() && fs.FileOk(ip, others) && OnlyFreed(fs, ip)
    ensures ip.addrs[NDIRECT] == old(ip.addrs[NDIRECT])
    ensures forall j :: 0 <= j < NDIRECT ==> ip.addrs[j] == 0
  {
    hide UsedSet;
    hide Ownership;
    hide Fs.BBlocks;
    FreedNone(fs, fs.Used(), fs.logged);
    ok := true;
    for i := 0 to NDIRECT
      invariant ok && fs.Valid() && fs.FileOk(ip, others) && OnlyFreed(fs, ip)
      invariant ip.addrs[NDIRECT] == old(ip.addrs[NDIRECT])
      invariant forall j :: 0 <= j < i ==> ip.addrs[j] == 0
    {
      if ip.addrs[i] != 0 {
        ghost var m, used := fs.Map(ip), fs.Used();
        OwnCleared(m, ip.addrs[NDIRECT], used, others, i);
        FreedOne(fs, old(fs.Used()), used, m[i], old(fs.logged));
        ok := fs.Bfree(ip.addrs[i]);
        MapSetDirect(ip.addrs, fs.blocks, i, 0);
        ip.addrs := ip.addrs[i := 0];
      }
    }
  }

  /* The loop over the entries of the indirect block, which stay in the freed block. */
  method FreeEntries(fs: Fs, ip: Inode, ghost others: set<nat>) returns (ok: bool, ghost t: seq<nat>)
    requires fs.Valid() && fs.FileOk(ip, others) && ip.addrs[NDIRECT] != 0
    requires forall j :: 0 <= j < NDIRECT ==> ip.addrs[j] == 0
    modifies fs`bits, fs`logged
    ensures ok && fs.Valid() && OnlyFreed(fs, ip)
    ensures |t| == MAXFILE && (forall j :: 0 <= j < MAXFILE ==> t[j] == 0)
    ensures Ownership(t, ip.addrs[NDIRECT], fs.Used(), others)
  {
    hide UsedSet;
    hide Ownership;
    hide Fs.BBlocks;
    var a := fs.blocks[ip.addrs[NDIRECT]];
    FreedNone(fs, fs.Used(), fs.logged);
    ok, t := true, fs.Map(ip);
    for j := 0 to NINDIRECT
      invariant ok && fs.Valid() && OnlyFreed(fs, ip)
      invariant |t| == MAXFILE && Ownership(t, ip.addrs[NDIRECT], fs.Used(), others)
      invariant forall k :: 0 <= k < NDIRECT + j ==> t[k] == 0
      invariant forall k :: NDIRECT + j <= k < MAXFILE ==> t[k] == Entry(a, k - NDIRECT) < fs.nblocks
    {
      assert t[NDIRECT + j] == Entry(a, j);
      if Entry(a, j) != 0 {
        OwnCleared(t, ip.addrs[NDIRECT], fs.Used(), others, NDIRECT + j);
        FreedOne(fs, old(fs.Used()), fs.Used(), Entry(a, j), old(fs.logged));
        ok := fs.Bfree(Entry(a, j));
        t := t[NDIRECT + j := 0];
      }
    }
  }

  /* All entries of the indirect block, then the block itself. */
  method FreeIndirect(fs: Fs, ip: Inode, ghost others: set<nat>) returns (ok: bool)
    requires fs.Valid() && fs.FileOk(ip, others) && ip.addrs[NDIRECT] != 0
    requires forall j :: 0 <= j < NDIRECT ==> ip.addrs[j] == 0
    modifies fs`bits, fs`logged, ip`addrs
    ensures ok && fs.Valid() && OnlyFreed(fs, ip)
    ensures ip.addrs == old(ip.addrs)[NDIRECT := 0] && fs.FileOk(ip, others)
  {
    hide UsedSet;
    hide Ownership;
    hide Fs.BBlocks;
    ghost var ind, t := ip.addrs[NDIRECT], [];
    ok, t := FreeEntries(fs, ip, others);
    OwnNothing(t, ind, fs.Used(), others);
    FreedOne(fs, old(fs.Used()), fs.Used(), ind, old(fs.logged));
    ok := fs.Bfree(ip.addrs[NDIRECT]);
    ip.addrs := ip.addrs[NDIRECT := 0];
    Emptied(ip.addrs, fs.blocks);
    assert fs.Map(ip) == t;
  }

  lemma FreedBoth(fs: Fs, used0: set<nat>, used1: set<nat>, used2: set<nat>, lg: set<nat>)
    requires used2 <= used1 <= used0
    ensures lg + fs.BBlocks(used0 - used1) + fs.BBlocks(used1 - used2) == lg + fs.BBlocks(used0 - used2)
  {
    assert used0 - used2 == (used0 - used1) + (used1 - used2);
  }

  lemma Emptied(addrs: seq<nat>, blocks: seq<Block>)
    requires AddrsOk(addrs, |blocks|) && forall i :: 0 <= i < |addrs| ==> addrs[i] == 0
    ensures addrs == seq(NDIRECT + 1, i => 0)
    ensures forall i :: 0 <= i < MAXFILE ==> Table(addrs, blocks)[i] == 0
  {
  }

  lemma OwnsNone(m: seq<nat>, used: set<nat>, others: set<nat>)
    requires Ownership(m, 0, used, others) && forall i :: 0 <= i < |m| ==> m[i] == 0
    ensures used == others && Mapped(m, 0, 0)
  {
    assert Owned(m, 0) == {};
  }

  /* itrunc: the file becomes empty, exactly its blocks become free, nothing else changes,
     and bfree never panics. */
  method Itrunc(fs: Fs, ip: Inode, ghost others: set<nat>) returns (ok: bool)
    requires fs.Valid() && fs.FileOk(ip, others) && fs.InTable(ip.inum)
    modifies fs`bits, fs`logged, fs`itable, fs`dinodes, ip`addrs, ip`size
    ensures ok && InodeOk(fs, ip, others) && Content(fs, ip, others) == []
    ensures fs.Used() == others && fs.blocks == old(fs.blocks)
    ensures fs.dinodes == old(fs.dinodes)[ip.inum := old(ip.Record()).(size := 0, addrs := seq(NDIRECT + 1, i => 0))]
    ensures fs.logged == old(fs.logged) + fs.BBlocks(old(fs.Used()) - others) + {fs.IBlock(ip.inum)}
  {
    hide Stored;
    hide Fs.TableOk;
    hide UsedSet;
    hide Ownership;
    hide Mapped;
    hide Fs.BBlocks;
    ghost var used0 := fs.Used();
    ok := FreeDirect(fs, ip, others);
    ghost var used1 := fs.Used();
    if ip.addrs[NDIRECT] != 0 {
      ok := FreeIndirect(fs, ip, others);
      FreedBoth(fs, used0, used1, fs.Used(), old(fs.logged));
    }
    Emptied(ip.addrs, fs.blocks);
    OwnsNone(fs.Map(ip), fs.Used(), others);
    ip.size := 0;
    fs.Iupdate(ip);
  }
}
