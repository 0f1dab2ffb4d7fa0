/**
Who is killed (proc.c).  kill marks the first slot with the pid it is given, also one that
is free, and neither allocproc nor a failing fork clears the mark.  So a process carries
the mark without anybody having named it exactly after a step that leaves a mark on a
free slot; `LeavesMark` says which steps those are.
*/
module ProcKill {
  import opened ProcTable

  /* No free slot carries the mark. */
  ghost predicate Unmarked(s: State) {
    forall p :: 0 <= p < |s.procs| && s.procs[p].state == UNUSED ==> !s.procs[p].killed
  }

  /* A fork that runs out of memory. */
  predicate Fails(a: Action) {
    (a.ForkStack? && !a.ok) || (a.ForkCopy? && !a.ok)
  }

  /* kill finds a free slot first, with the 0 of an empty one or the pid of a fork that
     failed; or fork gives up on a child that was killed meanwhile. */
  ghost predicate LeavesMark(s: State, a: Action) {
    && Enabled(s, a)
    && match a
       case Kill(c, pid) => exists i: nat :: FirstPid(s.procs, pid, i) && s.procs[i].state == UNUSED
       case ForkStack(c, ok) => !ok && s.procs[Pr(s, c).pc.np].killed
       case ForkCopy(c, ok) => !ok && s.procs[Pr(s, c).pc.np].killed
       case _ => false
  }

  /* The step kills the process with this pid, which is in use. */
  ghost predicate Hits(s: State, a: Action, pid: nat) {
    a.Kill? && a.pid == pid && exists i: nat :: FirstPid(s.procs, pid, i) && s.procs[i].state != UNUSED
  }

  /* The pids of `named`, and those that the steps of the run hit. */
  ghost function Named(s: State, acts: seq<Action>, named: set<nat>): set<nat>
    requires Runs(s, acts)
    decreases |acts|
  {
    if acts == [] then named
    else Named(Apply(s, acts[0]), acts[1..],
               if acts[0].Kill? && Hits(s, acts[0], acts[0].pid) then named + {acts[0].pid} else named)
  }

  ghost predicate NoMarkLeft(s: State, acts: seq<Action>)
    requires Runs(s, acts)
    decreases |acts|
  {
    acts == [] || (!LeavesMark(s, acts[0]) && NoMarkLeft(Apply(s, acts[0]), acts[1..]))
  }

  /* The step frees no slot and marks none. */
  ghost predicate SameMarks(was: seq<Proc>, now: seq<Proc>) {
    |now| == |was| && forall p :: 0 <= p < |was| ==>
      now[p].killed == was[p].killed && now[p].pid == was[p].pid && (now[p].state == UNUSED ==> was[p].state == UNUSED)
  }

  lemma ExitMarks(procs: seq<Proc>, cur: nat, init: nat)
    requires cur < |procs|
    ensures SameMarks(procs, Exited(procs, cur, init))
  {
  }

  lemma QuietStep(s: State, a: Action)
    requires Enabled(s, a) && !a.Kill? && !a.ForkAlloc? && !a.Reap? && !Fails(a)
    ensures SameMarks(s.procs, Apply(s, a).procs)
  {
    match a
    case Exit(c) =>
      hide SameMarks;
      hide Exited;
      ExitMarks(s.procs, Cur(s, c), s.init);
    case _ =>
  }

  lemma KillMarks(s: State, c: nat, pid: nat)
    requires Enabled(s, Kill(c, pid)) && Unmarked(s)
    ensures Unmarked(Apply(s, Kill(c, pid))) <==> !LeavesMark(s, Kill(c, pid))
  {
    var s' := Apply(s, Kill(c, pid));
    forall p | 0 <= p < |s.procs|
      ensures s'.procs[p] == if FirstPid(s.procs, pid, p) then Victim(s.procs[p]) else s.procs[p]
    {
    }
    if i: nat :| FirstPid(s.procs, pid, i) && s.procs[i].state == UNUSED {
      assert s'.procs[i] == Victim(s.procs[i]);
    }
  }

  /* The slot that a failing fork gives back keeps its mark. */
  lemma FailMarks(s: State, c: nat, a: Action)
    requires Enabled(s, a) && Unmarked(s) && Fails(a) && c == a.c
    ensures Unmarked(Apply(s, a)) <==> !LeavesMark(s, a)
  {
    var np := Pr(s, c).pc.np;
    assert Apply(s, a).procs[np].state == UNUSED && Apply(s, a).procs[np].killed == s.procs[np].killed;
  }

  /* A step leaves a mark on a free slot exactly as described. */
  lemma MarkExact(s: State, a: Action)
    requires Enabled(s, a) && Unmarked(s)
    ensures Unmarked(Apply(s, a)) <==> !LeavesMark(s, a)
  {
    if a.Kill? {
      KillMarks(s, a.c, a.pid);
    } else if Fails(a) {
      FailMarks(s, a.c, a);
    } else if !a.ForkAlloc? && !a.Reap? {
      QuietStep(s, a);
    }
  }

  /* Whoever carries the mark is in use and was named. */
  ghost predicate MarksNamed(s: State, named: set<nat>) {
    forall p :: 0 <= p < |s.procs| && s.procs[p].killed ==> s.procs[p].state != UNUSED && s.procs[p].pid in named
  }

  lemma KillNames(s: State, a: Action, named: set<nat>)
    requires a.Kill? && Enabled(s, a) && MarksNamed(s, named) && !LeavesMark(s, a)
    ensures MarksNamed(Apply(s, a), if Hits(s, a, a.pid) then named + {a.pid} else named)
  {
    var s' := Apply(s, a);
    forall p | 0 <= p < |s'.procs| && s'.procs[p].killed
      ensures s'.procs[p].state != UNUSED && (s.procs[p].killed || (Hits(s, a, a.pid) && s'.procs[p].pid == a.pid))
    {
      assert FirstPid(s.procs, a.pid, p) || s'.procs[p] == s.procs[p];
    }
  }

  lemma StepNames(s: State, a: Action, named: set<nat>)
    requires Enabled(s, a) && MarksNamed(s, named) && !LeavesMark(s, a)
    ensures MarksNamed(Apply(s, a), if a.Kill? && Hits(s, a, a.pid) then named + {a.pid} else named)
  {
    if a.Kill? {
      KillNames(s, a, named);
    } else if !a.ForkAlloc? && !a.Reap? && !Fails(a) {
      QuietStep(s, a);
    }
  }

  lemma {:induction false} RunNames(s: State, acts: seq<Action>, named: set<nat>)
    requires Runs(s, acts) && NoMarkLeft(s, acts) && MarksNamed(s, named)
    ensures MarksNamed(Final(s, acts), Named(s, acts, named))
    decreases |acts|
  {
    hide Enabled;
    hide Apply;
    hide MarksNamed;
    hide LeavesMark;
    hide Hits;
    if acts != [] {
      StepNames(s, acts[0], named);
      RunNames(Apply(s, acts[0]), acts[1..],
               if acts[0].Kill? && Hits(s, acts[0], acts[0].pid) then named + {acts[0].pid} else named);
    }
  }

  lemma NobodyKilled(nproc: nat, ncpu: nat)
    requires nproc > 0
    ensures MarksNamed(Init(nproc, ncpu), {})
  {
    var s := Init(nproc, ncpu);
    forall p | 0 <= p < |s.procs| ensures !s.procs[p].killed {
      assert s.procs[p] == if p == 0 then InitProc() else Empty();
    }
  }

  /* In every run without such a step, a process is killed only if some kill named its pid
     while it was in use. */
  lemma KilledByName(nproc: nat, ncpu: nat, acts: seq<Action>)
    requires nproc > 0 && Runs(Init(nproc, ncpu), acts) && NoMarkLeft(Init(nproc, ncpu), acts)
    ensures MarksNamed(Final(Init(nproc, ncpu), acts), Named(Init(nproc, ncpu), acts, {}))
  {
    NobodyKilled(nproc, ncpu);
    RunNames(Init(nproc, ncpu), acts, {});
  }

  // ----- a run with such a step

  /* A table of init and one other slot, on one cpu. */
  function Two(pc: Pc, child: Proc, nextpid: nat, nextpage: nat): State {
    State([InitProc().(state := RUNNING, pc := pc), child], [Slot(0)], 0, nextpid, nextpage, [], [], [])
  }

  lemma FirstSteps()
    ensures var s0 := Init(2, 1); Enabled(s0, Schedule(0, 0)) && Apply(s0, Schedule(0, 0)) == Two(User, Empty(), 2, 3)
    ensures var s1 := Two(User, Empty(), 2, 3); Enabled(s1, Kill(0, 0)) && !Hits(s1, Kill(0, 0), 0)
    ensures Apply(Two(User, Empty(), 2, 3), Kill(0, 0)) == Two(User, Victim(Empty()), 2, 3)
  {
    var s0, s1 := Init(2, 1), Two(User, Empty(), 2, 3);
    assert s0.procs == [InitProc(), Empty()] && s0.cpus == [Null];
    assert FirstPid(s1.procs, 0, 1) && !FirstPid(s1.procs, 0, 0);
    forall i: nat | FirstPid(s1.procs, 0, i) ensures i == 1 {
    }
    assert Apply(s1, Kill(0, 0)).procs == [s1.procs[0], Victim(s1.procs[1])];
  }

  lemma ForkSteps(x: Proc)
    requires x.state == UNUSED
    ensures var x1 := x.(state := EMBRYO, pid := 2);
            var x2 := x1.(kstack := 3);
            var x3 := x2.(pgdir := 4, parent := Slot(0));
            && Enabled(Two(User, x, 2, 3), ForkAlloc(0, 1))
            && Apply(Two(User, x, 2, 3), ForkAlloc(0, 1)) == Two(Forking(1, 0), x1, 3, 3)
            && Enabled(Two(Forking(1, 0), x1, 3, 3), ForkStack(0, true))
            && Apply(Two(Forking(1, 0), x1, 3, 3), ForkStack(0, true)) == Two(Forking(1, 1), x2, 3, 4)
            && Enabled(Two(Forking(1, 1), x2, 3, 4), ForkCopy(0, true))
            && Apply(Two(Forking(1, 1), x2, 3, 4), ForkCopy(0, true)) == Two(Forking(1, 2), x3, 3, 5)
            && Enabled(Two(Forking(1, 2), x3, 3, 5), ForkDone(0))
            && Apply(Two(Forking(1, 2), x3, 3, 5), ForkDone(0)) == Two(User, x3.(state := RUNNABLE, pc := User), 3, 5)
  {
  }

  /* init calls kill(0), which marks the free slot 1, and then forks; the child is born
     killed, although no kill named it. */
  lemma BornKilled()
    ensures var s0 := Init(2, 1);
            var acts := [Schedule(0, 0)] + ([Kill(0, 0)] + ([ForkAlloc(0, 1)] +
                        ([ForkStack(0, true)] + ([ForkCopy(0, true)] + ([ForkDone(0)] + [])))));
            && Runs(s0, acts) && Named(s0, acts, {}) == {}
            && var s := Final(s0, acts); |s.procs| == 2 && s.procs[1].state == RUNNABLE && s.procs[1].killed
  {
    hide Apply;
    hide Enabled;
    hide Hits;
    var x := Victim(Empty());
    FirstSteps();
    ForkSteps(x);
    var x1 := x.(state := EMBRYO, pid := 2);
    var x2 := x1.(kstack := 3);
    var x3 := x2.(pgdir := 4, parent := Slot(0));
    OneStep(Two(Forking(1, 2), x3, 3, 5), ForkDone(0), [], {});
    OneStep(Two(Forking(1, 1), x2, 3, 4), ForkCopy(0, true), [ForkDone(0)] + [], {});
    OneStep(Two(Forking(1, 0), x1, 3, 3), ForkStack(0, true), [ForkCopy(0, true)] + ([ForkDone(0)] + []), {});
    var rest := [ForkStack(0, true)] + ([ForkCopy(0, true)] + ([ForkDone(0)] + []));
    OneStep(Two(User, x, 2, 3), ForkAlloc(0, 1), rest, {});
    OneStep(Two(User, Empty(), 2, 3), Kill(0, 0), [ForkAlloc(0, 1)] + rest, {});
    OneStep(Init(2, 1), Schedule(0, 0), [Kill(0, 0)] + ([ForkAlloc(0, 1)] + rest), {});
  }

  lemma OneStep(s: State, a: Action, rest: seq<Action>, named: set<nat>)
    requires Enabled(s, a) && Runs(Apply(s, a), rest) && !(a.Kill? && Hits(s, a, a.pid))
    ensures Runs(s, [a] + rest) && Final(s, [a] + rest) == Final(Apply(s, a), rest)
    ensures Named(s, [a] + rest, named) == Named(Apply(s, a), rest, named)
  {
    assert ([a] + rest)[1..] == rest;
  }
}
