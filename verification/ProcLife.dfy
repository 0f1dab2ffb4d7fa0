/**
The life of a slot of the process table, said from the outside: for every step, and every
slot, which state it is in afterwards and what becomes of its pid, its parent and its mark
of kill, in terms of the step and the table before it.
*/
module ProcLife {
  import opened ProcTable

  /* The step is made by the process in slot p. */
  predicate By(s: State, a: Action, p: nat) {
    !a.Schedule? && Running(s, a.c) && s.cpus[a.c].i == p
  }

  /* It is a kill, and p is the first slot with that pid. */
  predicate Names(s: State, a: Action, p: nat) {
    a.Kill? && p < |s.procs| && s.procs[p].pid == a.pid && forall j :: 0 <= j < p ==> s.procs[j].pid != a.pid
  }

  /* It wakes whoever sleeps on this channel: a wakeup, or an exit, which wakes a parent in
     wait, and init in wait if it leaves a zombie to it. */
  predicate Rings(s: State, a: Action, ch: Chan) {
    || (a.Wakeup? && ch == Other(a.n))
    || (a.Exit? && Running(s, a.c) &&
        var cur := s.cpus[a.c].i;
        || (s.procs[cur].parent.Slot? && ch == ProcChan(s.procs[cur].parent.i))
        || (ch == ProcChan(s.init)
            && exists z :: 0 <= z < |s.procs| && s.procs[z].parent == Slot(cur) && s.procs[z].state == ZOMBIE))
  }

  /* A fork, by whichever process, gives up the slot p that it took. */
  predicate GivesUp(s: State, a: Action, p: nat) {
    (a.ForkStack? || a.ForkCopy?) && !a.ok && Running(s, a.c) && Pr(s, a.c).pc.Forking? && Pr(s, a.c).pc.np == p
  }

  /* The last step of the fork that took slot p. */
  predicate Finishes(s: State, a: Action, p: nat) {
    a.ForkDone? && Running(s, a.c) && Pr(s, a.c).pc.Forking? && Pr(s, a.c).pc.np == p
  }

  predicate Roused(s: State, a: Action, p: nat)
    requires p < |s.procs|
  {
    s.procs[p].state == SLEEPING && (Names(s, a, p) || Rings(s, a, s.procs[p].chan))
  }

  /* Slot p is in state `now` after step a: every change of state, and none besides. */
  predicate Life(s: State, a: Action, p: nat, now: RunState)
    requires p < |s.procs|
  {
    var was := s.procs[p].state;
    && (now == SLEEPING <==>
          ((a.Sleep? || a.WaitSleeps?) && By(s, a, p)) || (was == SLEEPING && !Roused(s, a, p)))
    && (now == RUNNING <==>
          || (a.Schedule? && a.p == p)
          || (was == RUNNING && !((a.Sleep? || a.WaitSleeps? || a.Yield? || a.Exit?) && By(s, a, p))))
    && (now == ZOMBIE <==> (a.Exit? && By(s, a, p)) || (was == ZOMBIE && !(a.Reap? && a.p == p)))
    && (now == UNUSED <==>
          (a.Reap? && a.p == p) || GivesUp(s, a, p) || (was == UNUSED && !(a.ForkAlloc? && a.np == p)))
    && (now == EMBRYO <==>
          (a.ForkAlloc? && a.np == p) || (was == EMBRYO && !GivesUp(s, a, p) && !Finishes(s, a, p)))
  }

  /* What the invariant says of the slots that a step is about. */
  lemma Parties(s: State, a: Action)
    requires Inv(s) && Enabled(s, a)
    ensures !a.Schedule? ==> Pr(s, a.c).state == RUNNING
    ensures (a.ForkStack? || a.ForkCopy? || a.ForkDone?) ==> s.procs[Pr(s, a.c).pc.np].state == EMBRYO
  {
    hide PidOk;
    hide PagesOk;
    hide WaitOk;
    hide ParentOk;
  }

  lemma ForkLife(s: State, a: Action, p: nat)
    requires Enabled(s, a) && (a.ForkAlloc? || a.ForkStack? || a.ForkCopy? || a.ForkDone?) && p < |s.procs|
    requires Pr(s, a.c).state == RUNNING && (!a.ForkAlloc? ==> s.procs[Pr(s, a.c).pc.np].state == EMBRYO)
    ensures |Apply(s, a).procs| == |s.procs| && Life(s, a, p, Apply(s, a).procs[p].state)
  {
  }

  lemma SwitchLife(s: State, a: Action, p: nat)
    requires Enabled(s, a) && (a.Reap? || a.WaitFails? || a.WaitSleeps? || a.Yield? || a.Sleep? || a.Schedule?)
    requires p < |s.procs| && (!a.Schedule? ==> Pr(s, a.c).state == RUNNING)
    ensures |Apply(s, a).procs| == |s.procs| && Life(s, a, p, Apply(s, a).procs[p].state)
  {
  }

  lemma WakeLife(s: State, a: Action, p: nat)
    requires Enabled(s, a) && (a.Wakeup? || a.Kill?) && p < |s.procs|
    ensures |Apply(s, a).procs| == |s.procs| && Life(s, a, p, Apply(s, a).procs[p].state)
  {
  }

  lemma ExitLife(s: State, a: Action, p: nat)
    requires Enabled(s, a) && a.Exit? && p < |s.procs| && Pr(s, a.c).state == RUNNING
    ensures |Apply(s, a).procs| == |s.procs| && Life(s, a, p, Apply(s, a).procs[p].state)
  {
  }

  lemma LifeCycle(s: State, a: Action, p: nat)
    requires Inv(s) && Enabled(s, a) && p < |s.procs|
    ensures |Apply(s, a).procs| == |s.procs| && Life(s, a, p, Apply(s, a).procs[p].state)
  {
    Parties(s, a);
    hide Inv;
    hide Apply;
    hide Life;
    if a.ForkAlloc? || a.ForkStack? || a.ForkCopy? || a.ForkDone? {
      ForkLife(s, a, p);
    } else if a.Wakeup? || a.Kill? {
      WakeLife(s, a, p);
    } else if a.Exit? {
      ExitLife(s, a, p);
    } else {
      SwitchLife(s, a, p);
    }
  }

  // ----- the fields of a slot

  predicate Copies(s: State, a: Action, p: nat) {
    a.ForkCopy? && a.ok && Running(s, a.c) && Pr(s, a.c).pc.Forking? && Pr(s, a.c).pc.np == p
  }

  predicate LeavesCpu(a: Action) {
    a.Sleep? || a.WaitSleeps? || a.Yield? || a.Exit?
  }

  /* The mark of kill, the pid, the parent and the channel after a step. */
  predicate Fields(s: State, a: Action, p: nat, now: Proc)
    requires p < |s.procs|
  {
    var was := s.procs[p];
    && (now.killed <==> Names(s, a, p) || (was.killed && !(a.Reap? && a.p == p)))
    && now.pid == (if a.ForkAlloc? && a.np == p then s.nextpid else if a.Reap? && a.p == p then 0 else was.pid)
    && now.parent ==
       (if Copies(s, a, p) then Slot(s.cpus[a.c].i)
        else if a.Exit? && Running(s, a.c) && was.parent == Slot(s.cpus[a.c].i) then Slot(s.init)
        else if a.Reap? && a.p == p then Null
        else was.parent)
    && now.chan ==
       (if a.Sleep? && By(s, a, p) then Other(a.n)
        else if a.WaitSleeps? && By(s, a, p) then ProcChan(p)
        else if a.Schedule? && a.p == p then NoChan
        else was.chan)
  }

  lemma FieldsAfter(s: State, a: Action, p: nat)
    requires Enabled(s, a) && p < |s.procs|
    ensures |Apply(s, a).procs| == |s.procs| && Fields(s, a, p, Apply(s, a).procs[p])
  {
    hide Fields;
    hide Apply;
    if a.Exit? {
      ExitFields(s, a, p);
    } else if a.Wakeup? || a.Kill? {
      WakeFields(s, a, p);
    } else if a.ForkAlloc? || a.ForkStack? || a.ForkCopy? || a.ForkDone? {
      ForkFields(s, a, p);
    } else {
      SwitchFields(s, a, p);
    }
  }

  lemma ForkFields(s: State, a: Action, p: nat)
    requires Enabled(s, a) && (a.ForkAlloc? || a.ForkStack? || a.ForkCopy? || a.ForkDone?) && p < |s.procs|
    ensures |Apply(s, a).procs| == |s.procs| && Fields(s, a, p, Apply(s, a).procs[p])
  {
  }

  lemma SwitchFields(s: State, a: Action, p: nat)
    requires Enabled(s, a) && (a.Reap? || a.WaitFails? || a.WaitSleeps? || a.Yield? || a.Sleep? || a.Schedule?)
    requires p < |s.procs|
    ensures |Apply(s, a).procs| == |s.procs| && Fields(s, a, p, Apply(s, a).procs[p])
  {
  }

  lemma ExitedFields(procs: seq<Proc>, cur: nat, init: nat, p: nat)
    requires cur < |procs| && p < |procs|
    ensures var procs' := Exited(procs, cur, init);
            && |procs'| == |procs| && procs'[p].killed == procs[p].killed && procs'[p].pid == procs[p].pid
            && procs'[p].chan == procs[p].chan
            && procs'[p].parent == if procs[p].parent == Slot(cur) then Slot(init) else procs[p].parent
  {
    hide ZombieChild;
  }

  lemma ExitFields(s: State, a: Action, p: nat)
    requires Enabled(s, a) && a.Exit? && p < |s.procs|
    ensures |Apply(s, a).procs| == |s.procs| && Fields(s, a, p, Apply(s, a).procs[p])
  {
    hide Exited;
    ExitedFields(s.procs, s.cpus[a.c].i, s.init, p);
  }

  lemma WakeFields(s: State, a: Action, p: nat)
    requires Enabled(s, a) && (a.Wakeup? || a.Kill?) && p < |s.procs|
    ensures |Apply(s, a).procs| == |s.procs| && Fields(s, a, p, Apply(s, a).procs[p])
  {
  }

  /* What the cpus run after a step. */
  lemma CpusAfter(s: State, a: Action, c: nat)
    requires Enabled(s, a) && c < |s.cpus|
    ensures |Apply(s, a).cpus| == |s.cpus|
            && Apply(s, a).cpus[c] == if a.Schedule? && a.c == c then Slot(a.p)
            else if LeavesCpu(a) && a.c == c then Null
            else s.cpus[c]
  {
    hide Exited;
    hide Killed;
  }

  // ----- kill, over runs

  /* From the kill that names it, a process in use carries the mark until it is reaped, and
     it is not asleep when kill returns. */
  lemma KillLasts(s: State, a: Action, p: nat, acts: seq<Action>)
    requires Inv(s) && Enabled(s, a) && p < |s.procs| && Names(s, a, p) && Runs(Apply(s, a), acts)
    requires forall i :: 0 <= i < |acts| ==> !(acts[i].Reap? && acts[i].p == p)
    ensures |Apply(s, a).procs| == |s.procs| && Apply(s, a).procs[p].state != SLEEPING
    ensures var s' := Final(Apply(s, a), acts); |s'.procs| == |s.procs| && s'.procs[p].killed
  {
    hide Inv;
    hide Apply;
    hide Enabled;
    LifeCycle(s, a, p);
    FieldsAfter(s, a, p);
    MarkStays(Apply(s, a), p, acts);
  }

  lemma {:induction false} MarkStays(s: State, p: nat, acts: seq<Action>)
    requires p < |s.procs| && s.procs[p].killed && Runs(s, acts)
    requires forall i :: 0 <= i < |acts| ==> !(acts[i].Reap? && acts[i].p == p)
    ensures |Final(s, acts).procs| == |s.procs| && Final(s, acts).procs[p].killed
    decreases |acts|
  {
    hide Apply;
    hide Enabled;
    if acts != [] {
      FieldsAfter(s, acts[0], p);
      MarkStays(Apply(s, acts[0]), p, acts[1..]);
    }
  }

  // ----- wait

  lemma {:induction false} FirstOne(procs: seq<Proc>, cur: nat, p: nat)
    requires p < |procs| && IsZombieChild(procs[p], cur)
    ensures exists q :: 0 <= q <= p && FirstZombie(procs, cur, q)
    decreases p
  {
    if j :| 0 <= j < p && IsZombieChild(procs[j], cur) {
      FirstOne(procs, cur, j);
    } else {
      assert FirstZombie(procs, cur, p);
    }
  }

  /* A process in wait reaps if it has a child that is a zombie; otherwise it gives up if it
     has no child or is killed, and sleeps if not. */
  lemma WaitDecides(s: State, c: nat)
    requires Inv(s) && Running(s, c) && !Pr(s, c).pc.Forking?
    ensures var cur := s.cpus[c].i;
            var zombie :=
              exists z :: 0 <= z < |s.procs| && s.procs[z].parent == Slot(cur) && s.procs[z].state == ZOMBIE;
            var child := exists z :: 0 <= z < |s.procs| && s.procs[z].parent == Slot(cur);
            && ((exists p :: Enabled(s, Reap(c, p))) <==> zombie)
            && (Enabled(s, WaitFails(c)) <==> !zombie && (!child || s.procs[cur].killed))
            && (Enabled(s, WaitSleeps(c)) <==> !zombie && child && !s.procs[cur].killed)
  {
    hide PidOk;
    hide PagesOk;
    hide CpuOk;
    hide ForkOk;
    hide WaitOk;
    var cur := s.cpus[c].i;
    if z :| 0 <= z < |s.procs| && s.procs[z].parent == Slot(cur) && s.procs[z].state == ZOMBIE {
      assert IsZombieChild(s.procs[z], cur);
      FirstOne(s.procs, cur, z);
      var q :| 0 <= q <= z && FirstZombie(s.procs, cur, q);
      assert Enabled(s, Reap(c, q));
    }
  }
}
