/**
The code of log.c over the machine of WriteAheadLog.  `s` is the machine's state and
`trail` the steps taken since power-on; `Matches` says that the fields hold exactly that
state and that the trail is a run of the machine, so everything proved about runs holds
of this code, with a crash before any of its block writes.  `Valid` adds the invariant of
the log, which only an append without room can break.
*/
module LogCode {
  import opened Wrappers
  import opened WriteAheadLog

  predicate Committing(phase: Phase) {
    phase.WritingLog? || phase.Installing? || phase.Committed?
  }

  predicate Started(phase: Phase) {
    !phase.Down? && !phase.Recovering?
  }

  /* k block writes. */
  function Writes(k: nat): (r: seq<Step>)
    ensures |r| == k
  {
    seq(k, i => DiskWrite)
  }

  lemma ExecSnoc(cfg: Config, origin: State, trail: seq<Step>, s: State, step: Step)
    requires Exec(cfg, origin, trail) == Some(s) && Shape(cfg, s) && Enabled(cfg, s, step)
    ensures Exec(cfg, origin, trail + [step]) == Some(Apply(cfg, s, step))
  {
    assert (trail + [step])[..|trail|] == trail;
  }

  class Log {
    const cfg: Config
    var disk: seq<Block>
    var view: seq<Block>
    var n: nat
    const block: array<int>
    var outstanding: nat
    var committing: bool
    ghost var s: State
    ghost const origin: State
    ghost var trail: seq<Step>

    ghost predicate Valid()
      reads this, block
    {
      Matches() && Inv(cfg, s)
    }

    ghost predicate Matches()
      reads this, block
    {
      && Shape(cfg, s)
      && block.Length == cfg.logsize
      && disk == s.disk
      && view == s.view
      && n == |s.lh| <= block.Length
      && block[..n] == s.lh
      && outstanding == s.outstanding
      && committing == Committing(s.phase)
      && Inv(cfg, origin)
      && Exec(cfg, origin, trail) == Some(s)
    }

    constructor (cfg: Config, d: seq<Block>)
      requires DiskOk(cfg, d)
      ensures Valid() && fresh(block)
      ensures this.cfg == cfg && s == Boot(cfg, d) && trail == []
    {
      this.cfg := cfg;
      disk, view := d, d;
      n := 0;
      block := new int[cfg.logsize];
      outstanding, committing := 0, false;
      s := Boot(cfg, d);
      origin := Boot(cfg, d);
      trail := [];
      BootKeeps(cfg, d);
    }

    ghost method Advance(step: Step)
      requires Inv(cfg, s) && Enabled(cfg, s, step) && Exec(cfg, origin, trail) == Some(s)
      modifies this`s, this`trail
      ensures Shape(cfg, s) && Takes(cfg, old(s), step, s) && (Roomy(cfg, old(s), step) ==> Inv(cfg, s))
      ensures trail == old(trail) + [step] && Exec(cfg, origin, trail) == Some(s)
    {
      hide RecoversTo;
      hide AllOrNothing;
      hide PhaseOk;
      ShapeKeeps(cfg, s, step);
      if Roomy(cfg, s, step) {
        StepKeeps(cfg, s, step);
      }
      ExecSnoc(cfg, origin, trail, s, step);
      s, trail := Apply(cfg, s, step), trail + [step];
    }

    /* The header block as write_head leaves it: the count and the first m entries are
       overwritten. */
    method HeaderBlock(prev: Block, m: nat) returns (hb: Block)
      requires m <= block.Length && m < WORDS
      ensures hb == PutHeader(prev, block[..m])
    {
      hb := prev[0 := m];
      var i := 0;
      while i < m
        invariant 0 <= i <= m
        invariant hb == [m] + block[..i] + prev[1 + i..]
      {
        hb := hb[1 + i := block[i]];
        i := i + 1;
      }
    }

    /* write_head */
    method WriteHead()
      requires cfg.start < |disk| == |view| && n <= block.Length && n < WORDS
      modifies this`disk, this`view
      ensures var hb := PutHeader(old(view)[cfg.start], block[..n]);
              disk == old(disk)[cfg.start := hb] && view == old(view)[cfg.start := hb]
    {
      var hb := HeaderBlock(view[cfg.start], n);
      disk := disk[cfg.start := hb];
      view := view[cfg.start := hb];
    }

    /* read_head */
    method ReadHeader()
      requires cfg.start < |view| && 0 <= view[cfg.start][0] <= block.Length && view[cfg.start][0] < WORDS
      modifies this`n, block
      ensures n == |HeaderOf(view[cfg.start])| <= block.Length && block[..n] == HeaderOf(view[cfg.start])
    {
      var hb := view[cfg.start];
      n := hb[0];
      var i := 0;
      while i < n
        invariant 0 <= i <= n == hb[0]
        invariant block[..i] == hb[1..1 + i]
      {
        block[i] := hb[1 + i];
        i := i + 1;
      }
    }

    lemma BlockAt(i: nat)
      requires Valid() && i < n
      ensures block[i] == s.lh[i] && cfg.Home(block[i]) && cfg.start + n < |disk|
    {
      assert block[..n][i] == s.lh[i];
    }

    /* One round of write_log. */
    method WriteOne(tail: nat)
      requires Valid() && tail < n && s.phase == WritingLog(tail)
      modifies this`disk, this`view, this`s, this`trail
      ensures Valid() && Takes(cfg, old(s), DiskWrite, s) && s.phase == WritingLog(tail + 1)
      ensures trail == old(trail) + [DiskWrite] && s.updates == old(s.updates)
    {
      hide Inv;
      hide Exec;
      hide HeaderShape;
      hide ListShape;
      hide UpdatesOk;
      hide PendingOk;
      hide CountActive;
      BlockAt(tail);
      var from := view[block[tail]];
      disk := disk[cfg.start + tail + 1 := from];
      view := view[cfg.start + tail + 1 := from];
      Advance(DiskWrite);
    }

    /* write_log: copy every modified block from the cache into the log. */
    method WriteLog()
      requires Valid() && s.phase == WritingLog(0)
      modifies this`disk, this`view, this`s, this`trail
      ensures Valid() && s.phase == WritingLog(n)
      ensures trail == old(trail) + Writes(n)
      ensures s.updates == old(s.updates)
    {
      hide Inv;
      hide Exec;
      hide Shape;
      var tail := 0;
      while tail < n
        invariant Valid() && tail <= n && s.phase == WritingLog(tail)
        invariant trail == old(trail) + Writes(tail)
        invariant s.updates == old(s.updates)
      {
        WriteOne(tail);
        tail := tail + 1;
      }
    }

    /* One round of install_trans: copy a logged block to its home. */
    method InstallOne(tail: nat)
      requires Valid() && tail < n && (s.phase == Installing(tail) || s.phase == Recovering(tail))
      modifies this`disk, this`view, this`s, this`trail
      ensures Valid() && Takes(cfg, old(s), DiskWrite, s) && trail == old(trail) + [DiskWrite]
      ensures s.phase == (if old(s.phase).Installing? then Installing(tail + 1) else Recovering(tail + 1))
    {
      hide Inv;
      hide Exec;
      hide HeaderShape;
      hide ListShape;
      hide UpdatesOk;
      hide PendingOk;
      hide CountActive;
      BlockAt(tail);
      var lbuf := view[cfg.start + tail + 1];
      disk := disk[block[tail] := lbuf];
      view := view[block[tail] := lbuf];
      Advance(DiskWrite);
      assert s.disk == disk && s.view == view && s.lh == old(s.lh);
    }

    /* install_trans */
    method InstallTrans()
      requires Valid() && (s.phase == Installing(0) || s.phase == Recovering(0))
      modifies this`disk, this`view, this`s, this`trail
      ensures Valid() && s.phase == (if old(s.phase).Installing? then Installing(n) else Recovering(n))
      ensures trail == old(trail) + Writes(n)
      ensures s.updates == old(s.updates) && s.durable == old(s.durable) && s.base == old(s.base)
    {
      hide Inv;
      hide Exec;
      hide Shape;
      var tail := 0;
      while tail < n
        invariant Valid() && tail <= n
        invariant s.phase == (if old(s.phase).Installing? then Installing(tail) else Recovering(tail))
        invariant trail == old(trail) + Writes(tail)
        invariant s.updates == old(s.updates) && s.durable == old(s.durable) && s.base == old(s.base)
      {
        InstallOne(tail);
        tail := tail + 1;
      }
    }

    /* commit: write the log, then the header, then install, then erase. */
    method Commit()
      requires Valid() && s.phase == if n > 0 then WritingLog(0) else Committed
      modifies this`disk, this`view, this`n, this`s, this`trail
      ensures Valid() && s.phase == Committed
      ensures trail == old(trail) + Writes(if old(n) > 0 then 2 * old(n) + 2 else 0)
      ensures s.updates == old(s.updates) && s.durable == |s.updates| && n == 0
    {
      hide Exec;
      hide Inv;
      hide Shape;
      hide Takes;
      if n > 0 {
        ghost var k := n;
        WriteLog();
        CommitRecord();
        InstallTrans();
        Erase();
        assert Writes(k) + [DiskWrite] + Writes(k) + [DiskWrite] == Writes(2 * k + 2);
        assert trail == old(trail) + (Writes(k) + [DiskWrite] + Writes(k) + [DiskWrite]);
      } else {
        AllDurable(cfg, s);
      }
    }

    /* The write_head of commit that makes the transaction durable. */
    method CommitRecord()
      requires Valid() && s.phase == WritingLog(n)
      modifies this`disk, this`view, this`s, this`trail
      ensures Valid() && Takes(cfg, old(s), DiskWrite, s) && s.phase == Installing(0)
      ensures trail == old(trail) + [DiskWrite] && s.updates == old(s.updates) && s.durable == |s.updates|
    {
      hide Inv;
      hide Exec;
      WriteHead();
      Advance(DiskWrite);
    }

    /* The end of commit and of recovery: an empty list is written to the header. */
    method Erase()
      requires Valid() && (s.phase == Installing(n) || s.phase == Recovering(n))
      modifies this`disk, this`view, this`n, this`s, this`trail
      ensures Valid() && Takes(cfg, old(s), DiskWrite, s) && n == 0
      ensures trail == old(trail) + [DiskWrite]
      ensures s.phase == (if old(s.phase).Installing? then Committed else Running)
      ensures s.updates == old(s.updates) && s.durable == old(s.durable) && s.base == old(s.base)
    {
      hide Inv;
      hide Exec;
      n := 0;
      WriteHead();
      assert block[..0] == [];
      Advance(DiskWrite);
    }

    method LoadHeader()
      requires Valid() && s.phase == Down
      modifies this`n, this`s, this`trail, block
      ensures Valid() && Takes(cfg, old(s), ReadHead, s) && trail == old(trail) + [ReadHead]
    {
      hide Inv;
      hide Exec;
      ReadHeader();
      Advance(ReadHead);
    }

    /* recover_from_log: afterwards every home block holds the last committed contents. */
    method RecoverFromLog()
      requires Valid() && s.phase == Down
      modifies this, block
      ensures Valid() && s.phase == Running && n == 0
      ensures trail == old(trail) + [ReadHead] + Writes(|HeaderOf(old(disk)[cfg.start])| + 1)
      ensures DurableState(cfg, s) == old(DurableState(cfg, s)) && SameHome(cfg, disk, DurableState(cfg, s))
    {
      hide Inv;
      hide Exec;
      hide SameHome;
      LoadHeader();
      assert |HeaderOf(old(disk)[cfg.start])| == n;
      hide HeaderOk;
      hide LogList;
      InstallTrans();
      Erase();
      QuietDisk(cfg, s);
    }

    /* One round of the loop of begin_op; false means that it goes back to sleep. */
    method BeginOp() returns (admitted: bool)
      requires Valid() && Started(s.phase)
      modifies this`outstanding, this`s, this`trail
      ensures Valid()
      ensures admitted == (!committing && n + (old(outstanding) + 1) * cfg.maxop <= cfg.logsize)
      ensures admitted ==> Takes(cfg, old(s), Begin, s) && trail == old(trail) + [Begin]
      ensures !admitted ==> s == old(s) && trail == old(trail) && outstanding == old(outstanding)
    {
      hide Inv;
      hide Exec;
      if committing {
        admitted := false;
      } else if n + (outstanding + 1) * cfg.maxop > cfg.logsize {
        admitted := false;
      } else {
        outstanding := outstanding + 1;
        Advance(Begin);
        admitted := true;
      }
    }

    /* The test of log_write(b), made without the lock; false means that it panics.  `p` is
       the operation the caller runs in. */
    method CheckWrite(b: int, ghost p: nat) returns (ok: bool)
      requires Valid() && Started(s.phase) && cfg.Home(b)
      requires outstanding > 0 ==> s.phase == Running && Idle(s.ops, p)
      modifies this`s, this`trail
      ensures Valid()
      ensures ok == (n < cfg.logsize && n < cfg.size - 1 && outstanding > 0)
      ensures ok ==> Takes(cfg, old(s), Check(p, b), s) && trail == old(trail) + [Check(p, b)]
      ensures !ok ==> s == old(s) && trail == old(trail)
    {
      hide Inv;
      hide Exec;
      if n >= cfg.logsize || n >= cfg.size - 1 {
        return false;
      }
      if outstanding < 1 {
        return false;
      }
      Advance(Check(p, b));
      return true;
    }

    /* The part of log_write(b) under the lock, with whatever the list holds by then.  The
       place in the array is what LogReservation promises an operation within its budget;
       the log stays sound exactly if the disk has room as well. */
    method AppendWrite(b: int, data: Block, ghost p: nat)
      requires Valid() && s.phase == Running && Waiting(s.ops, p, b) && InArray(cfg, s.lh, b)
      modifies this`view, this`n, this`s, this`trail, block
      ensures Matches() && Takes(cfg, old(s), Append(p, b, data), s) && trail == old(trail) + [Append(p, b, data)]
      ensures Valid() <==> Roomy(cfg, old(s), Append(p, b, data))
    {
      hide Exec;
      hide Inv;
      AppendExact(cfg, s, p, b, data);
      Place(b);
      view := view[b := data];
      Advance(Append(p, b, data));
    }

    /* The loop of log_write: an entry that is there already is reused. */
    method Place(b: int)
      requires n <= block.Length && (b in block[..n] || n < block.Length)
      modifies this`n, block
      ensures n <= block.Length && block[..n] == Absorb(old(block[..n]), b)
      ensures block[..n] == if b in old(block[..n]) then old(block[..n]) else old(block[..n]) + [b]
    {
      var i := 0;
      while i < n && block[i] != b
        invariant 0 <= i <= n
        invariant b !in block[..i]
      {
        i := i + 1;
      }
      assert b in block[..n] <==> i < n by {
        if i < n { assert block[..n][i] == b; }
      }
      block[i] := b;
      if i == n {
        n := n + 1;
      }
    }

    /* The locked part of end_op. */
    method LeaveOp(ghost p: nat)
      requires Valid() && s.phase == Running && Idle(s.ops, p)
      modifies this`outstanding, this`committing, this`s, this`trail
      ensures Valid() && outstanding == old(outstanding) - 1 && Takes(cfg, old(s), End(p), s)
      ensures trail == old(trail) + [End(p)] && s.updates == old(s.updates)
      ensures s.phase == (if outstanding > 0 then Running else if n > 0 then WritingLog(0) else Committed)
    {
      hide Inv;
      hide Exec;
      ActiveMeansOutstanding(s.ops, p);
      outstanding := outstanding - 1;
      if outstanding == 0 {
        committing := true;
      }
      Advance(End(p));
    }

    method FinishCommit()
      requires Valid() && s.phase == Committed
      modifies this`committing, this`s, this`trail
      ensures Valid() && Takes(cfg, old(s), Finish, s) && s.phase == Running && trail == old(trail) + [Finish]
      ensures s.updates == old(s.updates) && s.durable == old(s.durable)
    {
      hide Inv;
      hide Exec;
      committing := false;
      Advance(Finish);
    }

    /* end_op: the last operation out commits the whole group. */
    method EndOp(ghost p: nat)
      requires Valid() && s.phase == Running && Idle(s.ops, p)
      modifies this`disk, this`view, this`n, this`outstanding, this`committing, this`s, this`trail
      ensures Valid() && s.phase == Running && outstanding == old(outstanding) - 1
      ensures s.updates == old(s.updates)
      ensures outstanding > 0 ==> trail == old(trail) + [End(p)] && Takes(cfg, old(s), End(p), s)
      ensures outstanding == 0 ==>
                && trail == old(trail) + [End(p)] + Writes(if old(n) > 0 then 2 * old(n) + 2 else 0) + [Finish]
                && s.durable == |s.updates| && n == 0
    {
      hide Inv;
      hide Exec;
      hide Shape;
      hide Takes;
      LeaveOp(p);
      if outstanding == 0 {
        Commit();
        FinishCommit();
      }
    }
  }
}
