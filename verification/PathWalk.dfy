/**
namex (fs.c) over the file system of SystemOwnership: every step reads an inode from its
inode block and looks a name up in the bytes of the directory.  A walk is a sequence of
such rounds, each on the file system as it is by then; with nothing else going on it is the
fold of lookup over the components.  It changes nothing on disk and leaves one reference
behind, on the inode it returns.
*/
module PathWalk {
  import opened Wrappers
  import opened InodeMap
  import opened FileSystem
  import opened FileIo
  import opened SystemOwnership
  import opened Directory
  import opened DirectorySystem
  import opened Path

  /* The allocated inodes and what is in their directories. */
  ghost function TreeOf(dinodes: map<nat, Dinode>, blocks: seq<Block>): Tree
    requires Shapes(dinodes, blocks)
  {
    map i | i in dinodes && dinodes[i].typ != 0 ::
      if dinodes[i].typ == T_DIR then Dir(FileBytes(dinodes[i], blocks)) else Path.Other
  }

  ghost function TreeIn(fs: Fs, meta: set<nat>): Tree
    requires SystemOk(fs, meta)
    reads fs
  {
    TreeOf(fs.dinodes, fs.blocks)
  }

  /* One round of namex at inode `cur`: its type is read, and the name looked up if it is a
     directory and the walk goes on. */
  method Step(fs: Fs, cur: nat, elem: seq<byte>, last: bool, ghost meta: set<nat>) returns (dir: bool, next: nat)
    requires SystemOk(fs, meta) && Closed(TreeIn(fs, meta)) && cur in TreeIn(fs, meta)
    modifies fs`bits, fs`blocks, fs`logged
    ensures fs.bits == old(fs.bits) && fs.blocks == old(fs.blocks) && fs.logged == old(fs.logged)
    ensures dir <==> old(TreeIn(fs, meta))[cur].Dir?
    ensures dir && !last ==> next == Lookup(old(TreeIn(fs, meta))[cur].c, elem)
  {
    hide Shape;
    hide Disjoint;
    hide Reachable;
    hide FileBytes;
    hide Lookup;
    hide DirOk;
    hide Fs.Valid;
    ghost var tree := TreeIn(fs, meta);
    var ip := new Inode(cur, Dinode(0, 0, 0, 0, 0, []));
    var typed := fs.Ilock(ip);
    assert Locked(fs, ip) && cur in fs.dinodes;
    dir, next := ip.typ == T_DIR, 0;
    if dir && !last {
      assert tree[cur] == Dir(FileBytes(fs.dinodes[cur], fs.blocks));
      var off;
      next, off := FindName(fs, ip, elem, meta);
    }
  }

  lemma Lead(t: Tree, cur: nat, name: seq<byte>)
    requires Closed(t)
    ensures ROOTINO in t
    ensures cur in t && t[cur].Dir? && Lookup(t[cur].c, name) != 0 ==> Lookup(t[cur].c, name) in t
  {
  }

  lemma Arrived(t: Tree, start: nat, parent: bool)
    ensures Target(t, start, [], parent) == if parent then None else Some(start)
  {
  }

  /* One reference less to `from`, one more to `to`, and no other change. */
  ghost predicate Moved(s0: seq<Slot>, s1: seq<Slot>, from: nat, to: Option<nat>) {
    forall i: nat :: Refs(s1, i) == Refs(s0, i) - (if i == from then 1 else 0) + (if to == Some(i) then 1 else 0)
  }

  lemma MovedOn(was: seq<Slot>, s0: seq<Slot>, s1: seq<Slot>, from: nat, to: Option<nat>)
    requires OneMore(s0, was, Some(from)) && Moved(s0, s1, from, to)
    ensures OneMore(s1, was, to)
  {
    hide Refs;
    forall i: nat ensures Refs(s1, i) == Refs(was, i) + (if to == Some(i) then 1 else 0) {
      assert Refs(s0, i) == Refs(was, i) + (if Some(from) == Some(i) then 1 else 0);
    }
  }

  /* The reference to the inode in slot k is given back. */
  method Drop(ic: Icache, k: nat)
    requires ic.Valid() && k < |ic.slots| && ic.slots[k].ref > 0
    modifies ic
    ensures ic.Valid() && Moved(old(ic.slots), ic.slots, old(ic.slots)[k].inum, None)
  {
    hide Refs;
    hide Icache.Valid;
    ic.Iput(k);
  }

  /* It moves on to the inode `next`. */
  method Follow(ic: Icache, k: nat, next: nat) returns (k': nat, ok: bool)
    requires ic.Valid() && k < |ic.slots| && ic.slots[k].ref > 0
    modifies ic
    ensures ic.Valid()
    ensures ok ==> Live(ic.slots, k', next) && Moved(old(ic.slots), ic.slots, old(ic.slots)[k].inum, Some(next))
    ensures !ok ==> forall j :: 0 <= j < |ic.slots| ==> ic.slots[j].ref > 0
  {
    hide Refs;
    hide Icache.Valid;
    ghost var s0, cur := ic.slots, ic.slots[k].inum;
    k', ok := ic.Iget(next);
    if !ok {
      return k', false;
    }
    ghost var s1 := ic.slots;
    ic.Iput(k);
    forall i: nat
      ensures Refs(ic.slots, i) == Refs(s0, i) - (if i == cur then 1 else 0) + (if i == next then 1 else 0)
    {
      assert Refs(s1, i) == Refs(s0, i) + (if i == next then 1 else 0);
    }
  }

  /* The reference namex starts with. */
  method Begin(ic: Icache, path: seq<byte>, cwd: nat) returns (k: nat, ok: bool)
    requires ic.Valid() && cwd < |ic.slots| && ic.slots[cwd].ref > 0
    modifies ic
    ensures ic.Valid()
    ensures var start := if path != [] && path[0] == SLASH then ROOTINO else old(ic.slots)[cwd].inum;
            ok ==> Live(ic.slots, k, start) && OneMore(ic.slots, old(ic.slots), Some(start))
    ensures !ok ==> forall j :: 0 <= j < |ic.slots| ==> ic.slots[j].ref > 0
  {
    hide Refs;
    hide Icache.Valid;
    hide OneMore;
    ghost var was := ic.slots;
    ok := true;
    if path != [] && path[0] == SLASH {
      k, ok := ic.Iget(ROOTINO);
      if !ok {
        return k, false;
      }
    } else {
      k := cwd;
      ic.Idup(cwd);
    }
    FirstReference(was, ic.slots, ic.slots[k].inum);
  }

  // ----- the walk, one locked lookup at a time

  /* What namex finds if its i-th lookup sees the tree ts[i]. */
  ghost function AnswerThrough(ts: seq<Tree>, cur: nat, cs: seq<seq<byte>>, parent: bool): Option<nat>
    decreases |cs|
  {
    if cs == [] then (if parent then None else Some(cur))
    else if ts == [] || cur !in ts[0] || !ts[0][cur].Dir? then None
    else if parent && |cs| == 1 then Some(cur)
    else
      var next := Lookup(ts[0][cur].c, cs[0]);
      if next == 0 then None else AnswerThrough(ts[1..], next, cs[1..], parent)
  }

  /* If nothing changes during the walk, that is what the path leads to. */
  lemma {:induction false} SameTree(t: Tree, ts: seq<Tree>, cur: nat, cs: seq<seq<byte>>, parent: bool)
    requires (forall i :: 0 <= i < |ts| ==> ts[i] == t) && |ts| >= |cs|
    ensures AnswerThrough(ts, cur, cs, parent) == Target(t, cur, cs, parent)
    decreases |cs|
  {
    hide Lookup;
    if cs != [] {
      TargetStep(t, cur, cs, parent);
      if cur in t && t[cur].Dir? && !(parent && |cs| == 1) && Lookup(t[cur].c, cs[0]) != 0 {
        SameTree(t, ts[1..], Lookup(t[cur].c, cs[0]), cs[1..], parent);
      }
    }
  }

  /* A walk under way.  It holds one reference, to the inode in slot k, and no lock: between
     two calls of Advance other processes may change the file system. */
  class Walk {
    const parent: bool
    ghost const start: nat
    ghost const cs: seq<seq<byte>>
    var k: nat
    var rest: seq<byte>
    var name: seq<byte>
    var done: bool
    var result: Option<nat>
    ghost var inum: nat
    ghost var trees: seq<Tree>

    constructor (path: seq<byte>, parent: bool, k: nat, ghost start: nat)
      ensures Valid() && this.parent == parent && this.start == start && cs == Components(path)
      ensures !done && this.k == k && rest == path && inum == start && trees == [] && name == []
    {
      this.parent, this.start, this.cs := parent, start, Components(path);
      this.k, rest, name, done, result := k, path, [], false, None;
      inum, trees := start, [];
      new;
      hide Components;
      hide AnswerThrough;
      assert cs[0..] == cs;
      forall more: seq<Tree>
        ensures AnswerThrough([] + more, start, cs, parent) == AnswerThrough(more, start, cs, parent)
      {
        assert [] + more == more;
      }
    }

    /* The lookups so far have seen `trees`; whatever the coming ones see, the walk goes on
       from inode `inum` with the components that are left. */
    ghost predicate Valid()
      reads this
    {
      && |trees| <= |cs| && (!done ==> Components(rest) == cs[|trees|..])
      && forall more: seq<Tree> ::
           AnswerThrough(trees + more, start, cs, parent) ==
           if done then result else AnswerThrough(more, inum, cs[|trees|..], parent)
    }

    /* What one more lookup, in t, decides. */
    lemma Saw(t: Tree)
      requires Valid() && !done && |trees| < |cs|
      ensures forall more: seq<Tree> ::
                AnswerThrough(trees + [t] + more, start, cs, parent) ==
                if inum !in t || !t[inum].Dir? then None
                else if parent && |trees| + 1 == |cs| then Some(inum)
                else if Lookup(t[inum].c, cs[|trees|]) == 0 then None
                else AnswerThrough(more, Lookup(t[inum].c, cs[|trees|]), cs[|trees| + 1..], parent)
    {
      hide Lookup;
      hide Components;
      forall more: seq<Tree>
        ensures AnswerThrough(trees + [t] + more, start, cs, parent) ==
                AnswerThrough([t] + more, inum, cs[|trees|..], parent)
      {
        assert trees + [t] + more == trees + ([t] + more);
      }
      forall more: seq<Tree>
        ensures ([t] + more)[0] == t && ([t] + more)[1..] == more
      {
      }
      assert cs[|trees|..][1..] == cs[|trees| + 1..];
    }

    /* With no component left, the walk is over. */
    lemma Ended()
      requires Valid() && !done && |trees| == |cs|
      ensures forall more: seq<Tree> ::
                AnswerThrough(trees + more, start, cs, parent) == if parent then None else Some(inum)
    {
    }

    /* One round of namex, with the tree as it is now; ok is false where iget panics. */
    method Advance(fs: Fs, ic: Icache, ghost meta: set<nat>) returns (ok: bool)
      requires Valid() && !done && SystemOk(fs, meta) && Closed(TreeIn(fs, meta)) && inum in TreeIn(fs, meta)
      requires ic.Valid() && Live(ic.slots, k, inum)
      modifies this, ic, fs`bits, fs`blocks, fs`logged
      ensures ic.Valid() && fs.bits == old(fs.bits) && fs.blocks == old(fs.blocks) && fs.logged == old(fs.logged)
      ensures !ok ==> forall j :: 0 <= j < |ic.slots| ==> ic.slots[j].ref > 0
      ensures ok ==> Valid() && trees <= old(trees) + [old(TreeIn(fs, meta))]
      ensures ok && !done ==> trees == old(trees) + [old(TreeIn(fs, meta))] && |rest| < |old(rest)|
      ensures ok && !done ==> inum in old(TreeIn(fs, meta))
      ensures ok && !done ==> Live(ic.slots, k, inum) && Moved(old(ic.slots), ic.slots, old(inum), Some(inum))
      ensures ok && done ==> Moved(old(ic.slots), ic.slots, old(inum), result)
      ensures ok && done && result.Some? ==> Live(ic.slots, k, result.value)
      ensures ok && done && result.Some? && parent ==> cs != [] && name == Cut(cs[|cs| - 1])
    {
      hide Components;
      hide Lookup;
      hide Icache.Valid;
      hide SystemOk;
      hide Closed;
      hide TreeIn;
      hide Cut;
      hide Refs;
      hide Moved;
      hide AnswerThrough;
      ghost var t, left := TreeIn(fs, meta), cs[|trees|..];
      var rest', elem := Skipelem(rest);
      if rest'.None? {
        Ended();
        done := true;
        if parent {
          result := None;
          Drop(ic, k);
        } else {
          result := Some(ic.slots[k].inum);
          Stayed(ic.slots, inum);
        }
        return true;
      }
      name := elem;
      LastOne(rest'.value);
      var last := parent && rest'.value == [];
      var cur := ic.slots[k].inum;
      var dir, next := Step(fs, cur, elem, last, meta);
      Saw(t);
      if dir {
        CutLookup(t[cur].c, left[0]);
        Lead(t, cur, elem);
      }
      ghost var trees' := trees + [t];
      if !dir || (!last && next == 0) {
        done, result, trees := true, None, trees';
        Drop(ic, k);
        return true;
      }
      if last {
        done, result, trees := true, Some(cur), trees';
        Stayed(ic.slots, inum);
        return true;
      }
      var k', ok' := Follow(ic, k, next);
      if !ok' {
        return false;
      }
      k, rest, inum, trees := k', rest'.value, next, trees';
      return true;
    }
  }

  lemma Stayed(slots: seq<Slot>, inum: nat)
    ensures Moved(slots, slots, inum, Some(inum))
  {
  }

  /* namex from the root or the current directory, whose slot is cwd, with nothing else
     happening meanwhile; ok is false where iget panics.  k is the slot of the inode it
     returns, name the last element. */
  method Namex(fs: Fs, ic: Icache, path: seq<byte>, parent: bool, cwd: nat, ghost meta: set<nat>)
    returns (r: Option<nat>, k: nat, name: seq<byte>, ok: bool)
    requires SystemOk(fs, meta) && Closed(TreeIn(fs, meta))
    requires ic.Valid() && cwd < |ic.slots| && ic.slots[cwd].ref > 0 && ic.slots[cwd].inum in TreeIn(fs, meta)
    modifies ic, fs`bits, fs`blocks, fs`logged
    ensures ic.Valid() && fs.bits == old(fs.bits) && fs.blocks == old(fs.blocks) && fs.logged == old(fs.logged)
    ensures var start := if path != [] && path[0] == SLASH then ROOTINO else old(ic.slots)[cwd].inum;
            ok ==> r == Target(old(TreeIn(fs, meta)), start, Components(path), parent)
    ensures !ok ==> forall j :: 0 <= j < |ic.slots| ==> ic.slots[j].ref > 0
    ensures ok ==> OneMore(ic.slots, old(ic.slots), r)
    ensures ok && r.Some? ==> Live(ic.slots, k, r.value)
    ensures ok && r.Some? && parent ==> Components(path) != [] && name == Cut(Components(path)[|Components(path)| - 1])
  {
    hide Components;
    hide Icache.Valid;
    hide OneMore;
    hide Moved;
    hide SystemOk;
    hide Closed;
    hide Target;
    hide TreeIn;
    hide Cut;
    hide AnswerThrough;
    hide Walk.Valid;
    ghost var was, t := ic.slots, TreeIn(fs, meta);
    name := [];
    Lead(t, ROOTINO, []);
    k, ok := Begin(ic, path, cwd);
    if !ok {
      return None, k, name, false;
    }
    ghost var start := ic.slots[k].inum;
    var w := new Walk(path, parent, k, start);
    while !w.done
      invariant fresh(w) && w.Valid() && ok && w.parent == parent && w.start == start && w.cs == Components(path)
      invariant SystemOk(fs, meta) && TreeIn(fs, meta) == t && Closed(t)
      invariant fs.bits == old(fs.bits) && fs.blocks == old(fs.blocks) && fs.logged == old(fs.logged)
      invariant ic.Valid() && forall i :: 0 <= i < |w.trees| ==> w.trees[i] == t
      invariant !w.done ==> Live(ic.slots, w.k, w.inum) && w.inum in t && OneMore(ic.slots, was, Some(w.inum))
      invariant w.done ==> OneMore(ic.slots, was, w.result)
      invariant w.done && w.result.Some? ==> Live(ic.slots, w.k, w.result.value)
      invariant w.done && w.result.Some? && parent ==> w.cs != [] && w.name == Cut(w.cs[|w.cs| - 1])
      decreases !w.done, |w.rest|
    {
      ghost var s0, from := ic.slots, w.inum;
      ok := w.Advance(fs, ic, meta);
      if !ok {
        return None, k, name, false;
      }
      MovedOn(was, s0, ic.slots, from, if w.done then w.result else Some(w.inum));
    }
    Settled(w, t);
    return w.result, w.k, w.name, true;
  }

  /* A walk that has seen the same tree all the time. */
  lemma Settled(w: Walk, t: Tree)
    requires w.Valid() && w.done && forall i :: 0 <= i < |w.trees| ==> w.trees[i] == t
    ensures w.result == Target(t, w.start, w.cs, w.parent)
  {
    hide AnswerThrough;
    hide Target;
    hide Components;
    var more := seq(|w.cs|, _ => t);
    SameTree(t, w.trees + more, w.start, w.cs, w.parent);
  }
}
