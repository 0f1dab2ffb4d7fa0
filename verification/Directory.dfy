/**
Directories (fs.c): a directory is a file of 16-byte entries, an inode number and a name
of up to 14 bytes; number 0 marks a free slot.  dirlookup, dirlink and the clearing of a
slot by unlink make it a finite map from truncated names to inode numbers.
*/
module Directory {
  import opened InodeMap

  const DIRSIZ: nat := 14
  const ENTRY: nat := 16
  const DOT: seq<byte> := [46]
  const DOTDOT: seq<byte> := [46, 46]

  // ----- names

  /* The byte at i of a string in memory that ends in a NUL. */
  function At(s: seq<byte>, i: nat): byte {
    if i < |s| then s[i] else 0
  }

  /* The name that the first DIRSIZ bytes of s spell: up to a NUL, at most 14 bytes. */
  function Name(s: seq<byte>): (r: seq<byte>)
    ensures |r| <= DIRSIZ && r <= s && (|r| < DIRSIZ ==> At(s, |r|) == 0)
    ensures forall i :: 0 <= i < |r| ==> r[i] != 0
  {
    s[..NameLength(s, 0)]
  }

  function NameLength(s: seq<byte>, i: nat): (n: nat)
    requires i <= |s| && i <= DIRSIZ
    ensures i <= n <= |s| && n <= DIRSIZ && (n < DIRSIZ ==> At(s, n) == 0)
    ensures forall j :: i <= j < n ==> s[j] != 0
    decreases DIRSIZ - i
  {
    if i < DIRSIZ && At(s, i) != 0 then NameLength(s, i + 1) else i
  }

  lemma {:induction false} LongerThan(s: seq<byte>, i: nat, k: nat)
    requires i <= |s| && i <= k <= DIRSIZ && forall j :: i <= j < k ==> At(s, j) != 0
    ensures NameLength(s, i) >= k
    decreases k - i
  {
    if i < k {
      assert At(s, i) != 0;
      LongerThan(s, i + 1, k);
    }
  }

  /* Names are equal exactly when the bytes agree up to a common end. */
  lemma NameEqual(s: seq<byte>, t: seq<byte>, k: nat)
    requires k <= DIRSIZ && (forall i :: 0 <= i < k ==> At(s, i) == At(t, i) != 0)
    ensures k == DIRSIZ || At(s, k) == At(t, k) == 0 ==> Name(s) == Name(t)
    ensures k < DIRSIZ && At(s, k) != At(t, k) ==> Name(s) != Name(t)
  {
    hide NameLength;
    LongerThan(s, 0, k);
    LongerThan(t, 0, k);
    assert k == DIRSIZ || At(s, k) == 0 ==> |Name(s)| == k;
    assert k == DIRSIZ || At(t, k) == 0 ==> |Name(t)| == k;
    assert forall i :: 0 <= i < k ==> Name(s)[i] == At(s, i) && Name(t)[i] == At(t, i);
    assert k < |Name(s)| ==> Name(s)[k] == At(s, k);
    assert k < |Name(t)| ==> Name(t)[k] == At(t, k);
  }

  /* namecmp: strncmp over DIRSIZ bytes. */
  method Namecmp(s: seq<byte>, t: seq<byte>) returns (r: int)
    ensures r == 0 <==> Name(s) == Name(t)
  {
    var n := 0;
    while n < DIRSIZ && At(s, n) != 0 && At(s, n) == At(t, n)
      invariant 0 <= n <= DIRSIZ && forall i :: 0 <= i < n ==> At(s, i) == At(t, i) != 0
    {
      n := n + 1;
    }
    NameEqual(s, t, n);
    if n == DIRSIZ {
      return 0;
    }
    return At(s, n) - At(t, n);
  }

  // ----- entries

  function Inum(c: seq<byte>, k: nat): nat
    requires ENTRY * k + ENTRY <= |c|
  {
    var lo: int, hi: int := c[ENTRY * k], c[ENTRY * k + 1];
    lo + 256 * hi
  }

  function EntryName(c: seq<byte>, k: nat): seq<byte>
    requires ENTRY * k + ENTRY <= |c|
  {
    Name(c[ENTRY * k + 2..ENTRY * k + ENTRY])
  }

  function Slots(c: seq<byte>): nat {
    |c| / ENTRY
  }

  /* Entry k is in use under this name. */
  predicate Named(c: seq<byte>, k: nat, name: seq<byte>) {
    k < Slots(c) && Inum(c, k) != 0 && EntryName(c, k) == name
  }

  /* The name stands in some slot. */
  ghost predicate HasName(c: seq<byte>, name: seq<byte>) {
    exists k :: Named(c, k, name)
  }

  /* The directory maps name to inum. */
  ghost predicate Has(c: seq<byte>, name: seq<byte>, inum: nat) {
    exists k :: Named(c, k, name) && Inum(c, k) == inum
  }

  /* Whole entries, and no name twice. */
  ghost predicate DirOk(c: seq<byte>) {
    && |c| % ENTRY == 0
    && forall j, k, name :: Named(c, j, name) && Named(c, k, name) ==> j == k
  }

  lemma Functional(c: seq<byte>, name: seq<byte>, i: nat, j: nat)
    requires DirOk(c) && Has(c, name, i) && Has(c, name, j)
    ensures i == j
  {
  }

  /* The number under a name, 0 if there is none. */
  function LookupFrom(c: seq<byte>, name: seq<byte>, k: nat): nat
    requires k <= Slots(c)
    decreases Slots(c) - k
  {
    if k == Slots(c) then 0
    else if Named(c, k, Name(name)) then Inum(c, k)
    else LookupFrom(c, name, k + 1)
  }

  function Lookup(c: seq<byte>, name: seq<byte>): nat {
    LookupFrom(c, name, 0)
  }

  lemma {:induction false} LookupFromIs(c: seq<byte>, name: seq<byte>, k: nat)
    requires k <= Slots(c)
    ensures LookupFrom(c, name, k) != 0 ==> Has(c, Name(name), LookupFrom(c, name, k))
    ensures LookupFrom(c, name, k) == 0 ==> forall j :: k <= j < Slots(c) ==> !Named(c, j, Name(name))
    decreases Slots(c) - k
  {
    if k < Slots(c) && !Named(c, k, Name(name)) {
      LookupFromIs(c, name, k + 1);
    }
  }

  /* It is the value of the map that the directory is. */
  lemma LookupIs(c: seq<byte>, name: seq<byte>, inum: nat)
    requires DirOk(c) && inum != 0
    ensures Lookup(c, name) == inum <==> Has(c, Name(name), inum)
  {
    LookupFromIs(c, name, 0);
    if Has(c, Name(name), inum) {
      var k :| Named(c, k, Name(name)) && Inum(c, k) == inum;
      assert Lookup(c, name) != 0;
      Functional(c, Name(name), inum, Lookup(c, name));
    }
  }

  /* The bytes of an entry, as dirlink fills them in. */
  function EntryBytes(inum: nat, name: seq<byte>): (r: seq<byte>)
    requires inum < 0x1_0000
    ensures |r| == ENTRY
  {
    var n := Name(name);
    [inum % 256, inum / 256] + n + seq(DIRSIZ - |n|, i => 0)
  }

  lemma EntryBytesRead(inum: nat, name: seq<byte>)
    requires inum < 0x1_0000
    ensures Inum(EntryBytes(inum, name), 0) == inum && EntryName(EntryBytes(inum, name), 0) == Name(name)
  {
    var n, e := Name(name), EntryBytes(inum, name);
    var padded := e[2..ENTRY];
    assert padded == n + seq(DIRSIZ - |n|, i => 0);
    assert forall i :: 0 <= i < |n| ==> At(padded, i) == At(n, i) != 0;
    NameEqual(padded, n, |n|);
    assert Name(n) == n by {
      assert |Name(n)| == |n|;
    }
  }

  /* Writing one entry changes that entry only. */
  lemma SpliceEntry(c: seq<byte>, k: nat, e: seq<byte>, j: nat)
    requires |c| % ENTRY == 0 && k <= Slots(c) && |e| == ENTRY
    ensures var c' := Splice(c, ENTRY * k, e);
            && |c'| % ENTRY == 0 && Slots(c') == (if k == Slots(c) then k + 1 else Slots(c))
            && (j < Slots(c') ==>
                  c'[ENTRY * j..ENTRY * j + ENTRY] == if j == k then e else c[ENTRY * j..ENTRY * j + ENTRY])
  {
    var c' := Splice(c, ENTRY * k, e);
    assert ENTRY * Slots(c) == |c|;
    if j < Slots(c') && j != k {
      assert j < k || k < j;
    }
  }

  lemma EntryOf(c: seq<byte>, k: nat)
    requires k < Slots(c)
    ensures ENTRY * k + ENTRY <= |c|
    ensures var e := c[ENTRY * k..ENTRY * k + ENTRY]; Inum(c, k) == Inum(e, 0) && EntryName(c, k) == EntryName(e, 0)
  {
    var e := c[ENTRY * k..ENTRY * k + ENTRY];
    assert e[2..ENTRY] == c[ENTRY * k + 2..ENTRY * k + ENTRY];
  }

  // ----- what the operations do to the map

  /* Filling a free slot, or a new one at the end, adds one name. */
  lemma LinkMaps(c: seq<byte>, k: nat, inum: nat, name: seq<byte>)
    requires DirOk(c) && k <= Slots(c) && (k < Slots(c) ==> Inum(c, k) == 0) && 0 < inum < 0x1_0000
    requires forall j :: !Named(c, j, Name(name))
    ensures var c' := Splice(c, ENTRY * k, EntryBytes(inum, name));
            && DirOk(c') && (forall n, i :: Has(c', n, i) <==> Has(c, n, i) || (n == Name(name) && i == inum))
  {
    hide Splice;
    hide EntryBytes;
    hide Inum;
    hide EntryName;
    var e := EntryBytes(inum, name);
    var c' := Splice(c, ENTRY * k, e);
    EntryBytesRead(inum, name);
    SpliceEntry(c, k, e, 0);
    forall j | 0 <= j < Slots(c') && j != k
      ensures j < Slots(c) && Inum(c', j) == Inum(c, j) && EntryName(c', j) == EntryName(c, j)
    {
      SpliceEntry(c, k, e, j);
      EntryOf(c, j);
      EntryOf(c', j);
    }
    SpliceEntry(c, k, e, k);
    EntryOf(c', k);
    Relinked(c, c', k, Name(name), inum);
  }

  lemma Relinked(c: seq<byte>, c': seq<byte>, k: nat, name: seq<byte>, inum: nat)
    requires DirOk(c) && |c'| % ENTRY == 0 && Slots(c) <= Slots(c') && k < Slots(c') && inum != 0
    requires k < Slots(c) ==> Inum(c, k) == 0
    requires forall j :: !Named(c, j, name)
    requires forall j :: 0 <= j < Slots(c') && j != k ==>
               j < Slots(c) && Inum(c', j) == Inum(c, j) && EntryName(c', j) == EntryName(c, j)
    requires Inum(c', k) == inum && EntryName(c', k) == name
    ensures DirOk(c') && (forall n, i :: Has(c', n, i) <==> Has(c, n, i) || (n == name && i == inum))
  {
    hide Inum;
    hide EntryName;
    assert forall j, n :: Named(c', j, n) <==> Named(c, j, n) || (j == k && n == name);
    assert Named(c', k, name);
    forall n, i | Has(c, n, i) ensures Has(c', n, i) {
      var j :| Named(c, j, n) && Inum(c, j) == i;
      assert Named(c', j, n) && Inum(c', j) == i;
    }
  }

  /* Clearing the slot of a name removes that name. */
  lemma UnlinkMaps(c: seq<byte>, k: nat, name: seq<byte>)
    requires DirOk(c) && Named(c, k, name)
    ensures var c' := Splice(c, ENTRY * k, seq(ENTRY, i => 0));
            && |c'| == |c| && DirOk(c') && (forall n, i :: Has(c', n, i) <==> Has(c, n, i) && n != name)
  {
    hide Splice;
    hide EntryName;
    var e: seq<byte> := seq(ENTRY, i => 0);
    var c' := Splice(c, ENTRY * k, e);
    assert Inum(e, 0) == 0;
    SpliceEntry(c, k, e, 0);
    forall j | 0 <= j < Slots(c) && j != k ensures Inum(c', j) == Inum(c, j) && EntryName(c', j) == EntryName(c, j) {
      SpliceEntry(c, k, e, j);
      EntryOf(c, j);
      EntryOf(c', j);
    }
    SpliceEntry(c, k, e, k);
    EntryOf(c', k);
    assert |c'| == |c|;
    Unlinked(c, c', k, name);
  }

  lemma Unlinked(c: seq<byte>, c': seq<byte>, k: nat, name: seq<byte>)
    requires DirOk(c) && |c'| == |c| && Named(c, k, name) && Inum(c', k) == 0
    requires forall j :: 0 <= j < Slots(c) && j != k ==>
               Inum(c', j) == Inum(c, j) && EntryName(c', j) == EntryName(c, j)
    ensures DirOk(c') && (forall n, i :: Has(c', n, i) <==> Has(c, n, i) && n != name)
  {
    hide Inum;
    hide EntryName;
    assert forall j, n :: Named(c', j, n) <==> Named(c, j, n) && j != k;
    forall n, i | Has(c, n, i) && n != name ensures Has(c', n, i) {
      var j :| Named(c, j, n) && Inum(c, j) == i;
      assert Named(c', j, n) && Inum(c', j) == i;
    }
  }
}
