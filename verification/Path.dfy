/**
Paths (fs.c): skipelem takes a path apart, iget, idup and iput count references to
in-memory inodes, and `Target` is what a path leads to in a tree of directories: the fold
of lookup over its components.
*/
module Path {
  import opened Wrappers
  import opened InodeMap
  import opened Directory

  const SLASH: byte := 47
  const ROOTINO: nat := 1

  // ----- components

  /* Leading slashes dropped. */
  function Strip(p: seq<byte>): (r: seq<byte>)
    ensures |r| <= |p| && (r != [] ==> r[0] != SLASH)
  {
    if p != [] && p[0] == SLASH then Strip(p[1..]) else p
  }

  function ElemLength(p: seq<byte>): (n: nat)
    ensures n <= |p| && (forall i :: 0 <= i < n ==> p[i] != SLASH) && (n < |p| ==> p[n] == SLASH)
  {
    if p != [] && p[0] != SLASH then 1 + ElemLength(p[1..]) else 0
  }

  /* The nonempty components between slashes. */
  function Components(p: seq<byte>): seq<seq<byte>>
    decreases |p|
  {
    var q := Strip(p);
    if q == [] then [] else [q[..ElemLength(q)]] + Components(q[ElemLength(q)..])
  }

  function Slashes(n: nat): seq<byte> {
    seq(n, i => SLASH)
  }

  /* A path written from components, with any number of slashes around and between. */
  function Written(cs: seq<seq<byte>>, gaps: seq<nat>): seq<byte>
    requires |gaps| == |cs| + 1
  {
    if cs == [] then Slashes(gaps[0]) else Slashes(gaps[0]) + cs[0] + Written(cs[1..], gaps[1..])
  }

  predicate Plain(c: seq<byte>) {
    c != [] && forall i :: 0 <= i < |c| ==> c[i] != SLASH
  }

  lemma {:induction false} StripSlashes(n: nat, p: seq<byte>)
    requires p == [] || p[0] != SLASH
    ensures Strip(Slashes(n) + p) == p
    decreases n
  {
    if n == 0 {
      assert Slashes(0) + p == p;
    } else {
      assert (Slashes(n) + p)[1..] == Slashes(n - 1) + p;
      StripSlashes(n - 1, p);
    }
  }

  lemma {:induction false} ElemOf(c: seq<byte>, p: seq<byte>)
    requires (forall i :: 0 <= i < |c| ==> c[i] != SLASH) && (p == [] || p[0] == SLASH)
    ensures ElemLength(c + p) == |c|
    decreases |c|
  {
    if c == [] {
      assert c + p == p;
    } else {
      assert (c + p)[1..] == c[1..] + p;
      ElemOf(c[1..], p);
    }
  }

  /* Components are what was written, however many slashes separate them. */
  lemma {:induction false} ComponentsWritten(cs: seq<seq<byte>>, gaps: seq<nat>)
    requires |gaps| == |cs| + 1 && (forall i :: 0 <= i < |cs| ==> Plain(cs[i]))
             && (forall i :: 0 < i < |cs| ==> gaps[i] > 0)
    ensures Components(Written(cs, gaps)) == cs
    decreases |cs|
  {
    if cs == [] {
      StripSlashes(gaps[0], []);
      assert Slashes(gaps[0]) + [] == Slashes(gaps[0]);
    } else {
      var rest := Written(cs[1..], gaps[1..]);
      var q := cs[0] + rest;
      assert Plain(cs[0]) && q[0] == cs[0][0];
      StripSlashes(gaps[0], q);
      assert Written(cs, gaps) == Slashes(gaps[0]) + q;
      if |cs| > 1 {
        assert gaps[1] > 0 && rest[0] == SLASH;
      } else {
        assert rest == Slashes(gaps[1]);
      }
      ElemOf(cs[0], rest);
      assert q[..|cs[0]|] == cs[0] && q[|cs[0]|..] == rest;
      ComponentsWritten(cs[1..], gaps[1..]);
    }
  }

  /* The 14 bytes of an element that a name holds. */
  function Cut(e: seq<byte>): seq<byte> {
    if |e| >= DIRSIZ then e[..DIRSIZ] else e
  }

  /* skipelem: the next element, cut to DIRSIZ bytes, and the path after it. */
  method Skipelem(path: seq<byte>) returns (rest: Option<seq<byte>>, name: seq<byte>)
    ensures rest.None? <==> Components(path) == []
    ensures rest.Some? ==> name == Cut(Components(path)[0]) && Components(rest.value) == Components(path)[1..]
    ensures rest.Some? ==> |rest.value| < |path| && (rest.value != [] ==> rest.value[0] != SLASH)
  {
    hide Components;
    var i := SkipSlashes(path, 0);
    StripAll(path);
    if i == |path| {
      return None, [];
    }
    var s := i;
    while i < |path| && path[i] != SLASH
      invariant s <= i <= |path| && (forall k :: s <= k < i ==> path[k] != SLASH) && (i == s ==> path[s] != SLASH)
    {
      i := i + 1;
    }
    var len := i - s;
    name := if len >= DIRSIZ then path[s..s + DIRSIZ] else path[s..i];
    CutOf(path, s, i);
    FirstComponent(path, s, i);
    SameComponents(path[i..]);
    i := SkipSlashes(path, i);
    return Some(path[i..]), name;
  }

  lemma CutOf(path: seq<byte>, s: nat, i: nat)
    requires s <= i <= |path|
    ensures Cut(path[s..i]) == if i - s >= DIRSIZ then path[s..s + DIRSIZ] else path[s..i]
  {
    if i - s >= DIRSIZ {
      assert path[s..i][..DIRSIZ] == path[s..s + DIRSIZ];
    }
  }

  lemma StripAll(path: seq<byte>)
    ensures path[0..] == path && (Strip(path) == [] ==> Components(path) == [])
  {
  }

  lemma FirstComponent(path: seq<byte>, s: nat, e: nat)
    requires s < e <= |path| && path[s..] == Strip(path) && (e < |path| ==> path[e] == SLASH)
    requires forall k :: s <= k < e ==> path[k] != SLASH
    ensures Components(path) == [path[s..e]] + Components(path[e..])
  {
    hide ElemLength;
    var q := path[s..];
    assert path[s..e] + path[e..] == q;
    ElemOf(path[s..e], path[e..]);
    assert ElemLength(q) == e - s && q[..e - s] == path[s..e] && q[e - s..] == path[e..];
  }

  lemma SameComponents(p: seq<byte>)
    ensures Components(Strip(p)) == Components(p)
  {
    assert Strip(Strip(p)) == Strip(p);
  }

  method SkipSlashes(path: seq<byte>, i: nat) returns (j: nat)
    requires i <= |path|
    ensures i <= j <= |path| && path[j..] == Strip(path[i..])
  {
    j := i;
    while j < |path| && path[j] == SLASH
      invariant i <= j <= |path| && Strip(path[j..]) == Strip(path[i..])
    {
      assert path[j..][1..] == path[j + 1..];
      j := j + 1;
    }
  }

  // ----- in-memory inodes

  datatype Slot = Slot(ref: nat, inum: nat)

  /* How many references there are to an inode. */
  function Refs(slots: seq<Slot>, inum: nat): nat {
    if slots == [] then 0
    else Refs(slots[..|slots| - 1], inum) + (if slots[|slots| - 1].inum == inum then slots[|slots| - 1].ref else 0)
  }

  lemma {:induction false} RefsPut(slots: seq<Slot>, k: nat, x: Slot, inum: nat)
    requires k < |slots|
    ensures Refs(slots[k := x], inum) ==
            Refs(slots,
                 inum) - (if slots[k].inum == inum then slots[k].ref else 0) + (if x.inum == inum then x.ref else 0)
    decreases |slots|
  {
    var n := |slots| - 1;
    if k < n {
      RefsPut(slots[..n], k, x, inum);
      assert slots[k := x][..n] == slots[..n][k := x];
    } else {
      assert slots[k := x][..n] == slots[..n];
    }
  }

  predicate Live(slots: seq<Slot>, k: nat, inum: nat) {
    k < |slots| && slots[k].ref > 0 && slots[k].inum == inum
  }

  class Icache {
    var slots: seq<Slot>

    constructor (n: nat)
      ensures slots == seq(n, i => Slot(0, 0)) && Valid()
    {
      slots := seq(n, i => Slot(0, 0));
    }

    /* No inode is in memory twice. */
    ghost predicate Valid()
      reads this
    {
      forall j, k :: 0 <= j < k < |slots| && slots[j].ref > 0 && slots[k].ref > 0 ==> slots[j].inum != slots[k].inum
    }

    /* iget; ok is false where it panics, with every slot taken by another inode. */
    method Iget(inum: nat) returns (k: nat, ok: bool)
      requires Valid()
      modifies this
      ensures Valid() && |slots| == |old(slots)|
      ensures !ok ==> slots == old(slots) && forall j :: 0 <= j < |slots| ==> slots[j].ref > 0 && slots[j].inum != inum
      ensures ok ==>
                Live(slots, k, inum)
                && forall i: nat :: Refs(slots, i) == Refs(old(slots), i) + (if i == inum then 1 else 0)
      ensures ok ==>
                slots == old(slots)[k := Slot(old(slots)[k].ref + 1, inum)]
                && (old(slots)[k].ref == 0 || old(slots)[k].inum == inum)
      ensures ok && old(slots)[k].ref == 0 ==>
                forall j :: 0 <= j < |slots| ==> !Live(old(slots), j, inum) && (j < k ==> old(slots)[j].ref > 0)
    {
      var i: nat, empty: nat := 0, |slots|;
      while i < |slots|
        invariant 0 <= i <= |slots| && slots == old(slots)
                  && (empty == |slots|
                      || (empty < i && slots[empty].ref == 0 && forall j :: 0 <= j < empty ==> slots[j].ref > 0))
        invariant forall j :: 0 <= j < i ==> !Live(slots, j, inum) && (empty == |slots| ==> slots[j].ref > 0)
      {
        if slots[i].ref > 0 && slots[i].inum == inum {
          forall n: nat
            ensures Refs(slots[i := Slot(slots[i].ref + 1, inum)], n) == Refs(slots, n) + (if n == inum then 1 else 0)
          {
            RefsPut(slots, i, Slot(slots[i].ref + 1, inum), n);
          }
          slots := slots[i := Slot(slots[i].ref + 1, inum)];
          return i, true;
        }
        if empty == |slots| && slots[i].ref == 0 {
          empty := i;
        }
        i := i + 1;
      }
      if empty == |slots| {
        return 0, false;
      }
      forall n: nat ensures Refs(slots[empty := Slot(1, inum)], n) == Refs(slots, n) + (if n == inum then 1 else 0) {
        RefsPut(slots, empty, Slot(1, inum), n);
      }
      slots := slots[empty := Slot(1, inum)];
      return empty, true;
    }

    method Idup(k: nat)
      requires Valid() && k < |slots| && slots[k].ref > 0
      modifies this
      ensures Valid() && slots == old(slots)[k := Slot(old(slots)[k].ref + 1, old(slots)[k].inum)]
      ensures forall i: nat :: Refs(slots, i) == Refs(old(slots), i) + (if i == old(slots)[k].inum then 1 else 0)
    {
      var x := Slot(slots[k].ref + 1, slots[k].inum);
      forall n: nat
        ensures Refs(slots[k := x], n) == Refs(slots, n) + (if n == x.inum then 1 else 0)
      {
        RefsPut(slots, k, x, n);
      }
      slots := slots[k := x];
    }

    /* iput of an inode that keeps a link or another reference. */
    method Iput(k: nat)
      requires Valid() && k < |slots| && slots[k].ref > 0
      modifies this
      ensures Valid() && slots == old(slots)[k := Slot(old(slots)[k].ref - 1, old(slots)[k].inum)]
      ensures forall i: nat :: Refs(slots, i) == Refs(old(slots), i) - (if i == old(slots)[k].inum then 1 else 0)
    {
      var x := Slot(slots[k].ref - 1, slots[k].inum);
      forall n: nat
        ensures Refs(slots[k := x], n) == Refs(slots, n) - (if n == x.inum then 1 else 0)
      {
        RefsPut(slots, k, x, n);
      }
      slots := slots[k := x];
    }
  }

  // ----- namex

  /* An inode's contents: a directory with its entries, or something else. */
  datatype File = Dir(c: seq<byte>) | Other

  type Tree = map<nat, File>

  /* There is a root, every directory is a map, and every entry leads to an inode that is
     there. */
  ghost predicate Closed(t: Tree) {
    && ROOTINO in t
    && (forall i :: i in t && t[i].Dir? ==> DirOk(t[i].c))
    && (forall i, name :: i in t && t[i].Dir? && Lookup(t[i].c, name) != 0 ==> Lookup(t[i].c, name) in t)
  }

  /* Lookup folded over components. */
  function Resolve(t: Tree, start: nat, cs: seq<seq<byte>>): Option<nat>
    decreases |cs|
  {
    if cs == [] then Some(start)
    else if start !in t || !t[start].Dir? || Lookup(t[start].c, cs[0]) == 0 then None
    else Resolve(t, Lookup(t[start].c, cs[0]), cs[1..])
  }

  /* What namex finds: the inode of the path, or of the directory its last element is in. */
  function Target(t: Tree, start: nat, cs: seq<seq<byte>>, parent: bool): Option<nat> {
    if !parent then Resolve(t, start, cs)
    else if cs == [] then None
    else
      var d := Resolve(t, start, cs[..|cs| - 1]);
      if d.Some? && d.value in t && t[d.value].Dir? then d else None
  }

  /* A path is walked piece by piece. */
  lemma {:induction false} ResolveAppend(t: Tree, start: nat, a: seq<seq<byte>>, b: seq<seq<byte>>)
    ensures Resolve(t, start, a + b) ==
            var mid := Resolve(t, start, a); if mid.None? then None else Resolve(t, mid.value, b)
    decreases |a|
  {
    hide Lookup;
    if a == [] {
      assert a + b == b;
    } else {
      assert (a + b)[0] == a[0] && (a + b)[1..] == a[1..] + b;
      if start in t && t[start].Dir? && Lookup(t[start].c, a[0]) != 0 {
        ResolveAppend(t, Lookup(t[start].c, a[0]), a[1..], b);
      }
    }
  }

  /* Looking the last element up in what nameiparent finds is what namei does. */
  lemma ParentThenName(t: Tree, start: nat, cs: seq<seq<byte>>)
    requires cs != []
    ensures var d := Target(t, start, cs, true);
            && (d.Some? ==> d.value in t && t[d.value].Dir?)
            && Target(t, start, cs, false) ==
               if d.None? || Lookup(t[d.value].c, cs[|cs| - 1]) == 0 then None
               else Some(Lookup(t[d.value].c, cs[|cs| - 1]))
  {
    hide Lookup;
    var n := |cs| - 1;
    assert cs[..n] + [cs[n]] == cs;
    ResolveAppend(t, start, cs[..n], [cs[n]]);
  }

  /* The first DIRSIZ bytes, or all of them; the directory does not look at more. */
  lemma CutName(e: seq<byte>)
    ensures Cut(e) <= e && |Cut(e)| <= DIRSIZ && (|Cut(e)| == DIRSIZ || Cut(e) == e)
    ensures Name(Cut(e)) == Name(e)
  {
    if |e| >= DIRSIZ {
      var k := |Name(e)|;
      assert forall i :: 0 <= i < k ==> At(e[..DIRSIZ], i) == At(e, i) != 0;
      NameEqual(e[..DIRSIZ], e, k);
    }
  }

  lemma CutLookup(c: seq<byte>, e: seq<byte>)
    ensures Lookup(c, Cut(e)) == Lookup(c, e)
  {
    CutName(e);
    LookupSame(c, Cut(e), e, 0);
  }

  lemma {:induction false} LookupSame(c: seq<byte>, a: seq<byte>, b: seq<byte>, k: nat)
    requires Name(a) == Name(b) && k <= Slots(c)
    ensures LookupFrom(c, a, k) == LookupFrom(c, b, k)
    decreases Slots(c) - k
  {
    if k < Slots(c) {
      LookupSame(c, a, b, k + 1);
    }
  }

  /* Taking the first component off. */
  lemma TargetStep(t: Tree, start: nat, cs: seq<seq<byte>>, parent: bool)
    requires cs != []
    ensures start !in t || !t[start].Dir? ==> Target(t, start, cs, parent) == None
    ensures start in t && t[start].Dir? && parent && |cs| == 1 ==> Target(t, start, cs, parent) == Some(start)
    ensures start in t && t[start].Dir? && !(parent && |cs| == 1) ==>
              Target(t, start, cs, parent) ==
              var next := Lookup(t[start].c, cs[0]); if next == 0 then None else Target(t, next, cs[1..], parent)
  {
    if parent && |cs| > 1 {
      assert cs[..|cs| - 1][0] == cs[0] && cs[..|cs| - 1][1..] == cs[1..][..|cs[1..]| - 1];
    }
  }

  lemma MoveReference(was: seq<Slot>, s0: seq<Slot>, s1: seq<Slot>, s2: seq<Slot>, cur: nat, next: Option<nat>)
    requires OneMore(s0, was, Some(cur))
    requires forall i: nat :: Refs(s1, i) == Refs(s0, i) + (if next == Some(i) then 1 else 0)
    requires forall i: nat :: Refs(s2, i) == Refs(s1, i) - (if i == cur then 1 else 0)
    ensures OneMore(s2, was, next)
  {
    hide Refs;
    forall i: nat ensures Refs(s2, i) == Refs(was, i) + (if next == Some(i) then 1 else 0) {
      assert Refs(s0, i) == Refs(was, i) + (if Some(cur) == Some(i) then 1 else 0);
      assert Refs(s1, i) == Refs(s0, i) + (if next == Some(i) then 1 else 0);
    }
  }

  lemma FirstReference(was: seq<Slot>, now: seq<Slot>, inum: nat)
    requires forall i: nat :: Refs(now, i) == Refs(was, i) + (if i == inum then 1 else 0)
    ensures OneMore(now, was, Some(inum))
  {
    hide Refs;
  }

  ghost predicate OneMore(now: seq<Slot>, was: seq<Slot>, r: Option<nat>) {
    forall i: nat :: Refs(now, i) == Refs(was, i) + (if r == Some(i) then 1 else 0)
  }

  /* A path without leading slash has another component exactly if it is not empty. */
  lemma LastOne(p: seq<byte>)
    requires p == [] || p[0] != SLASH
    ensures p == [] <==> Components(p) == []
  {
  }
}
