/**
The loops of proc.c over the process table, each proved to do what the step machine of
the process table says.
*/
module ProcCode {
  import opened ProcTable

  class Ptable {
    var procs: seq<Proc>

    constructor (n: nat)
      ensures |procs| == n && forall i :: 0 <= i < n ==> procs[i] == Empty()
    {
      procs := seq(n, i => Empty());
    }

    /* allocproc: the first unused slot; the length of the table if there is none. */
    method FindUnused() returns (i: nat)
      ensures i <= |procs| && (i < |procs| ==> FirstUnused(procs, i))
      ensures i == |procs| ==> forall j :: 0 <= j < |procs| ==> procs[j].state != UNUSED
    {
      i := 0;
      while i < |procs|
        invariant 0 <= i <= |procs| && forall j :: 0 <= j < i ==> procs[j].state != UNUSED
      {
        if procs[i].state == UNUSED {
          return i;
        }
        i := i + 1;
      }
    }

    method Wakeup1(ch: Chan)
      modifies this
      ensures procs == Woken(old(procs), ch) && |procs| == |old(procs)|
      ensures forall i :: 0 <= i < |procs| ==>
                var was := old(procs)[i];
                procs[i] == if was.state == SLEEPING && was.chan == ch then was.(state := RUNNABLE) else was
    {
      ghost var t := procs;
      var i := 0;
      while i < |procs|
        invariant 0 <= i <= |procs| == |t|
        invariant forall j :: 0 <= j < |t| ==> procs[j] == if j < i then WakeIf(t[j], ch) else t[j]
      {
        if procs[i].state == SLEEPING && procs[i].chan == ch {
          procs := procs[i := procs[i].(state := RUNNABLE)];
        }
        i := i + 1;
      }
    }

    /* The loop of exit over the children; a zombie child wakes init each time. */
    method Adopt(cur: nat, init: nat)
      modifies this
      ensures procs == if ZombieChild(old(procs), cur) then Woken(Adopted(old(procs), cur, init), ProcChan(init))
                       else Adopted(old(procs), cur, init)
    {
      ghost var t := procs;
      var i := 0;
      while i < |procs|
        invariant 0 <= i <= |procs| == |t|
        invariant forall j :: 0 <= j < |t| ==> procs[j] == Midway(t, j, i, cur, init)
      {
        if procs[i].parent == Slot(cur) {
          procs := procs[i := procs[i].(parent := Slot(init))];
          if procs[i].state == ZOMBIE {
            assert IsZombieChild(t[i], cur);
            Wakeup1(ProcChan(init));
          }
        }
        i := i + 1;
      }
      assert ZombieBefore(t, |t|, cur) <==> ZombieChild(t, cur);
    }

    /* exit under ptable.lock, up to sched. */
    method Exit(cur: nat, init: nat)
      requires cur < |procs|
      modifies this
      ensures procs == Exited(old(procs), cur, init)
    {
      ghost var t := procs;
      if procs[cur].parent.Slot? {
        Wakeup1(ProcChan(procs[cur].parent.i));
      }
      SameZombies(t, procs, cur);
      Adopt(cur, init);
      procs := procs[cur := procs[cur].(state := ZOMBIE)];
    }

    /* One scan of wait: the first zombie child, or whether there are children at all. */
    method WaitScan(cur: nat) returns (i: nat, havekids: bool)
      ensures if i < |procs| then FirstZombie(procs, cur, i) else i == |procs| && !ZombieChild(procs, cur)
      ensures i == |procs| ==> (havekids <==> HasKids(procs, cur))
    {
      i, havekids := 0, false;
      while i < |procs|
        invariant 0 <= i <= |procs| && (havekids <==> exists j :: 0 <= j < i && procs[j].parent == Slot(cur))
        invariant forall j :: 0 <= j < i ==> !IsZombieChild(procs[j], cur)
      {
        if procs[i].parent == Slot(cur) {
          havekids := true;
          if procs[i].state == ZOMBIE {
            return;
          }
        }
        i := i + 1;
      }
    }

    method Kill(pid: nat) returns (r: int)
      modifies this
      ensures procs == Killed(old(procs), pid) && |procs| == |old(procs)|
      ensures forall i :: 0 <= i < |procs| ==>
                var was := old(procs)[i];
                if was.pid == pid && forall j :: 0 <= j < i ==> old(procs)[j].pid != pid
                then procs[i] == was.(killed := true, state := if was.state == SLEEPING then RUNNABLE else was.state)
                else procs[i] == was
      ensures r == if exists i :: 0 <= i < |procs| && old(procs)[i].pid == pid then 0 else -1
    {
      ghost var t := procs;
      var i := 0;
      while i < |procs|
        invariant 0 <= i <= |procs| && procs == t && forall j :: 0 <= j < i ==> procs[j].pid != pid
      {
        if procs[i].pid == pid {
          assert FirstPid(t, pid, i);
          procs := procs[i := procs[i].(killed := true)];
          if procs[i].state == SLEEPING {
            procs := procs[i := procs[i].(state := RUNNABLE)];
          }
          assert procs == Killed(t, pid);
          return 0;
        }
        i := i + 1;
      }
      assert procs == Killed(t, pid);
      return -1;
    }
  }

  /* A zombie child lies before slot i. */
  predicate ZombieBefore(t: seq<Proc>, i: nat, cur: nat) {
    exists j :: 0 <= j < i && j < |t| && IsZombieChild(t[j], cur)
  }

  /* Slot j when the loop of exit has come to slot i. */
  function Midway(t: seq<Proc>, j: nat, i: nat, cur: nat, init: nat): Proc
    requires j < |t|
  {
    var x := if j < i then Foster(t[j], cur, init) else t[j];
    if ZombieBefore(t, i, cur) then WakeIf(x, ProcChan(init)) else x
  }

  lemma SameZombies(t: seq<Proc>, t1: seq<Proc>, cur: nat)
    requires cur < |t| && t1 == if t[cur].parent.Slot? then Woken(t, ProcChan(t[cur].parent.i)) else t
    ensures ZombieChild(t1, cur) <==> ZombieChild(t, cur)
  {
    assert forall i :: 0 <= i < |t| ==> (IsZombieChild(t1[i], cur) <==> IsZombieChild(t[i], cur));
  }
}
