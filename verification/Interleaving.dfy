/**
filewrite gives up its locks after every chunk, so transactions of other processes come in
between.  Here a run of the file system is a sequence of transactions by any processes, each
on one inode; what a file holds in the end depends on its own transactions only.
*/
module Interleaving {
  import opened InodeMap
  import opened FileSystem
  import opened FileIo
  import opened FileWrite
  import opened SystemOwnership

  datatype Disk = Disk(dinodes: map<nat, Dinode>, blocks: seq<Block>, used: set<nat>)

  ghost function DiskOf(fs: Fs): Disk
    requires fs.Valid()
    reads fs
  {
    Disk(fs.dinodes, fs.blocks, fs.Used())
  }

  /* The bytes of file inum. */
  ghost function Holds(d: Disk, inum: nat): seq<byte> {
    if inum in d.dinodes && Shape(d.dinodes[inum], d.blocks) then FileBytes(d.dinodes[inum], d.blocks) else []
  }

  /* What a transaction does to the bytes of its inode: it writes a chunk, it is a write that
     was refused, or it is anything else, say a truncation. */
  datatype Change = Patch(off: nat, chunk: seq<byte>) | Same | Any

  datatype Op = Op(inum: nat, change: Change)

  ghost predicate Changed(was: seq<byte>, now: seq<byte>, change: Change) {
    match change
    case Patch(off, chunk) => off <= |was| && now == Splice(was, off, chunk)
    case Same => now == was
    case Any => true
  }

  /* One transaction. */
  ghost predicate StepOn(d: Disk, d': Disk, op: Op) {
    && op.inum in d.dinodes && d'.dinodes.Keys == d.dinodes.Keys
    && Changed(Holds(d, op.inum), Holds(d', op.inum), op.change)
    && forall j :: j in d.dinodes && j != op.inum ==> d'.dinodes[j] == d.dinodes[j] && Holds(d', j) == Holds(d, j)
  }

  /* A run: the states before and after each transaction. */
  ghost predicate Run(states: seq<Disk>, ops: seq<Op>) {
    |states| == |ops| + 1 && forall i :: 0 <= i < |ops| ==> StepOn(states[i], states[i + 1], ops[i])
  }

  /* What the run does to file inum. */
  ghost function Own(ops: seq<Op>, inum: nat): seq<Change> {
    if ops == [] then []
    else
      var last := ops[|ops| - 1];
      Own(ops[..|ops| - 1], inum) + if last.inum == inum then [last.change] else []
  }

  /* The same changes made to a file nobody else is near. */
  ghost function Replay(changes: seq<Change>, c: seq<byte>): seq<byte> {
    if changes == [] then c
    else
      var last, c' := changes[|changes| - 1], Replay(changes[..|changes| - 1], c);
      if last.Patch? && last.off <= |c'| then Splice(c', last.off, last.chunk) else c'
  }

  lemma OwnLast(ops: seq<Op>, inum: nat)
    requires ops != []
    ensures var own, before, last := Own(ops, inum), Own(ops[..|ops| - 1], inum), ops[|ops| - 1];
            && (Any !in own ==> Any !in before)
            && (if last.inum == inum then own != [] && own[..|own| - 1] == before && own[|own| - 1] == last.change
                else own == before)
  {
    assert forall ch :: ch in Own(ops[..|ops| - 1], inum) ==> ch in Own(ops, inum);
  }

  /* Whatever transactions on other files come in between, a file ends as if its own writes
     had been made alone. */
  lemma {:induction false} Isolated(states: seq<Disk>, ops: seq<Op>, inum: nat)
    requires Run(states, ops) && inum in states[0].dinodes && Any !in Own(ops, inum)
    ensures inum in states[|ops|].dinodes
    ensures Holds(states[|ops|], inum) == Replay(Own(ops, inum), Holds(states[0], inum))
    decreases |ops|
  {
    hide Splice;
    hide Holds;
    if ops != [] {
      hide Own;
      var n := |ops| - 1;
      assert StepOn(states[n], states[n + 1], ops[n]);
      OwnLast(ops, inum);
      Isolated(states[..n + 1], ops[..n], inum);
    }
  }

  /* All the bytes these writes bring. */
  ghost function Sent(changes: seq<Change>): seq<byte> {
    if changes == [] then []
    else
      var last := changes[|changes| - 1];
      Sent(changes[..|changes| - 1]) + if last.Patch? then last.chunk else []
  }

  /* One open file, whose offset starts at off, makes all of them. */
  ghost predicate Stream(changes: seq<Change>, off: nat) {
    changes == [] ||
    var last, before := changes[|changes| - 1], changes[..|changes| - 1];
    Stream(before, off) && !last.Any? && (last.Patch? ==> last.off == off + |Sent(before)|)
  }

  lemma {:induction false} OneStream(changes: seq<Change>, c: seq<byte>, off: nat)
    requires Stream(changes, off) && off <= |c|
    ensures Replay(changes, c) == Splice(c, off, Sent(changes)) && Any !in changes
    decreases |changes|
  {
    hide Splice;
    if changes == [] {
      SpliceNothing(c, off);
    } else {
      var before, last := changes[..|changes| - 1], changes[|changes| - 1];
      OneStream(before, c, off);
      assert changes == before + [last];
      if last.Patch? {
        SpliceTwice(c, off, Sent(before), last.chunk);
      } else {
        assert Sent(before) + [] == Sent(before);
      }
    }
  }

  /* The rounds of one filewrite, spread over a run among the transactions of any other
     processes on other files, write what one uninterrupted write of the same bytes would. */
  lemma Interleaved(states: seq<Disk>, ops: seq<Op>, inum: nat, off: nat)
    requires Run(states, ops) && inum in states[0].dinodes
    requires Stream(Own(ops, inum), off) && off <= |Holds(states[0], inum)|
    ensures Holds(states[|ops|], inum) == Splice(Holds(states[0], inum), off, Sent(Own(ops, inum)))
  {
    OneStream(Own(ops, inum), Holds(states[0], inum), off);
    Isolated(states, ops, inum);
  }

  /* A transaction on the whole system, from what the system operations promise. */
  lemma Stepped(d0: map<nat, Dinode>, b0: seq<Block>, used0: set<nat>, d1: map<nat, Dinode>, b1: seq<Block>,
                used1: set<nat>, op: Op)
    requires Shapes(d0, b0) && Shapes(d1, b1) && op.inum in d0
    requires OnlyInode(d0, d1, op.inum) && OthersIntact(d0, b0, d1, b1, op.inum)
    requires Changed(FileBytes(d0[op.inum], b0), FileBytes(d1[op.inum], b1), op.change)
    ensures StepOn(Disk(d0, b0, used0), Disk(d1, b1, used1), op)
  {
    hide Shape;
    hide FileBytes;
    hide Changed;
  }

  /* One round of filewrite's loop in a system with any number of files, as it finds the file
     when it gets the lock; ok is false where balloc panics. */
  method WriteRound(fs: Fs, f: File, src: seq<byte>, i: nat, ghost meta: set<nat>)
    returns (r: int, ok: bool, ghost op: Op)
    requires SystemOk(fs, meta) && Locked(fs, f.ip) && f.off < 0x1_0000_0000 && i < |src|
    modifies fs`bits, fs`blocks, fs`logged, fs`itable, fs`dinodes, f.ip`addrs, f.ip`size, f`off
    ensures fs.Valid() && (ok ==> SystemOk(fs, meta) && Locked(fs, f.ip) && |fs.logged| <= MAXOPBLOCKS)
    ensures !ok ==> fs.AllUsed()
    ensures ok ==> op.inum == f.ip.inum && StepOn(old(DiskOf(fs)), DiskOf(fs), op)
    ensures ok && r == -1 ==> op.change == Same && f.off == old(f.off)
    ensures ok && r != -1 ==>
              && i < i + r <= |src| && op.change == Patch(old(f.off), src[i..i + r])
              && (r == CHUNK || i + r == |src|) && f.off == old(f.off) + r
    ensures var n1 := if |src| - i > CHUNK then CHUNK else |src| - i;
            var refused := old(f.off) > old(f.ip.size) || old(f.off) + n1 > MAXFILE * BSIZE;
            && (r == -1 <==> refused)
            && (!ok <==> !refused && |old(fs.Free())| < Need(old(f.ip.size), Max(old(f.ip.size), old(f.off) + n1)))
  {
    hide Fs.LaidOut;
    hide Fs.Free;
    hide Need;
    hide Ownership;
    hide Shape;
    hide Disjoint;
    hide Reachable;
    hide InodeOk;
    hide Splice;
    hide UsedSet;
    hide StepOn;
    hide Fs.TableOk;
    hide Fs.AllUsed;
    hide Mapped;
    hide OnlyInode;
    hide OthersIntact;
    hide FileBytes;
    hide Kept;
    hide Content;
    ghost var d0, b0, used0 := fs.dinodes, fs.blocks, fs.Used();
    ghost var off0, others := f.off, Rest(d0, b0, used0, f.ip.inum);
    Enter(fs, f.ip, meta);
    var n1 := if |src| - i > CHUNK then CHUNK else |src| - i;
    r, ok := Transaction(fs, f, src[i..i + n1], others);
    op := Op(f.ip.inum, if r == -1 then Same else Patch(off0, src[i..i + n1]));
    if ok {
      Leave(fs, f.ip, d0, b0, used0, meta);
      Stepped(d0, b0, used0, fs.dinodes, fs.blocks, fs.Used(), op);
    }
  }
}
