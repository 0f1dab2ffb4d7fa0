/**
The process table (proc.c): fork, exit, wait, scheduler, yield, sleep, wakeup and kill as
steps under ptable.lock, for any number of slots and cpus.  Between any two steps of any
run a process is RUNNING exactly when one cpu runs it, parents are alive, nobody sleeps
in wait while a child is a zombie, and what an exited process owned is given back once.
*/
module ProcTable {

  datatype RunState = UNUSED | EMBRYO | SLEEPING | RUNNABLE | RUNNING | ZOMBIE

  datatype Ref = Null | Slot(i: nat)

  /* wait sleeps on the address of the process itself; everything else sleeps elsewhere. */
  datatype Chan = NoChan | ProcChan(p: nat) | Other(n: nat)

  /* Where a process is between two steps; the stages of fork are: slot taken, stack
     allocated, memory copied. */
  datatype Pc = User | Forking(np: nat, stage: nat) | InWait

  /* kstack and pgdir name allocations; 0 is a null pointer. */
  datatype Proc = Proc(state: RunState, pid: nat, parent: Ref, kstack: nat, pgdir: nat, chan: Chan, killed: bool,
                       pc: Pc)

  datatype State = State(procs: seq<Proc>, cpus: seq<Ref>, init: nat, nextpid: nat, nextpage: nat,
                         exited: seq<nat>, reaped: seq<nat>, freed: seq<nat>)

  datatype Action =
    | ForkAlloc(c: nat, np: nat)      // allocproc: take the first unused slot
    | ForkStack(c: nat, ok: bool)     // allocproc: kalloc for the stack
    | ForkCopy(c: nat, ok: bool)      // fork: copyuvm, parent
    | ForkDone(c: nat)                // fork: np->state = RUNNABLE
    | Exit(c: nat)
    | Reap(c: nat, p: nat)            // wait: the scan finds a zombie child
    | WaitFails(c: nat)               // wait: no children, or killed
    | WaitSleeps(c: nat)              // wait: sleep(curproc, &ptable.lock)
    | Yield(c: nat)
    | Sleep(c: nat, n: nat)
    | Wakeup(c: nat, n: nat)
    | Kill(c: nat, pid: nat)
    | Schedule(c: nat, p: nat)

  predicate Alive(pr: Proc) {
    pr.state == RUNNABLE || pr.state == RUNNING || pr.state == SLEEPING
  }

  // ----- the scans of the table

  function WakeIf(pr: Proc, ch: Chan): Proc {
    if pr.state == SLEEPING && pr.chan == ch then pr.(state := RUNNABLE) else pr
  }

  /* wakeup1 */
  function Woken(procs: seq<Proc>, ch: Chan): (r: seq<Proc>)
    ensures |r| == |procs| && forall i :: 0 <= i < |procs| ==> r[i] == WakeIf(procs[i], ch)
  {
    seq(|procs|, i requires 0 <= i < |procs| => WakeIf(procs[i], ch))
  }

  /* The children of cur go to init. */
  function Adopted(procs: seq<Proc>, cur: nat, init: nat): (r: seq<Proc>)
    ensures |r| == |procs|
    ensures forall i :: 0 <= i < |procs| ==>
              r[i] == if procs[i].parent == Slot(cur) then procs[i].(parent := Slot(init)) else procs[i]
  {
    seq(|procs|, i requires 0 <= i < |procs| =>
      if procs[i].parent == Slot(cur) then procs[i].(parent := Slot(init)) else procs[i])
  }

  predicate ZombieChild(procs: seq<Proc>, cur: nat) {
    exists i :: 0 <= i < |procs| && IsZombieChild(procs[i], cur)
  }

  /* What exit does to the table. */
  function Exited(procs: seq<Proc>, cur: nat, init: nat): (r: seq<Proc>)
    requires cur < |procs|
  {
    var t1 := if procs[cur].parent.Slot? then Woken(procs, ProcChan(procs[cur].parent.i)) else procs;
    var t2 := Adopted(t1, cur, init);
    var t3 := if ZombieChild(procs, cur) then Woken(t2, ProcChan(init)) else t2;
    t3[cur := t3[cur].(state := ZOMBIE)]
  }

  /* The first slot, if any, in a given state, or the first zombie child. */
  predicate FirstUnused(procs: seq<Proc>, i: nat) {
    i < |procs| && procs[i].state == UNUSED && forall j :: 0 <= j < i ==> procs[j].state != UNUSED
  }

  predicate IsZombieChild(pr: Proc, cur: nat) {
    pr.parent == Slot(cur) && pr.state == ZOMBIE
  }

  predicate FirstZombie(procs: seq<Proc>, cur: nat, i: nat) {
    i < |procs| && IsZombieChild(procs[i], cur) && forall j :: 0 <= j < i ==> !IsZombieChild(procs[j], cur)
  }

  predicate HasKids(procs: seq<Proc>, cur: nat) {
    exists i :: 0 <= i < |procs| && procs[i].parent == Slot(cur)
  }

  // ----- the steps

  /* Cpu c runs a process; cur is its slot. */
  predicate Running(s: State, c: nat) {
    c < |s.cpus| && s.cpus[c].Slot? && s.cpus[c].i < |s.procs|
  }

  function Cur(s: State, c: nat): nat
    requires Running(s, c)
  {
    s.cpus[c].i
  }

  function Pr(s: State, c: nat): Proc
    requires Running(s, c)
  {
    s.procs[Cur(s, c)]
  }

  function Put(s: State, i: nat, pr: Proc): State
    requires i < |s.procs|
  {
    s.(procs := s.procs[i := pr])
  }

  predicate InStage(s: State, c: nat, stage: nat) {
    && Running(s, c) && Pr(s, c).pc.Forking? && Pr(s, c).pc.stage == stage && Pr(s, c).pc.np < |s.procs|
    && Pr(s, c).pc.np != Cur(s, c)
  }

  predicate Enabled(s: State, a: Action) {
    match a
    case ForkAlloc(c, np) => Running(s, c) && Pr(s, c).pc == User && FirstUnused(s.procs, np) && np != Cur(s, c)
    case ForkStack(c, ok) => InStage(s, c, 0)
    case ForkCopy(c, ok) => InStage(s, c, 1)
    case ForkDone(c) => InStage(s, c, 2)
    case Exit(c) => Running(s, c) && Pr(s, c).pc == User && Cur(s, c) != s.init
    case Reap(c, p) => Running(s, c) && !Pr(s, c).pc.Forking? && FirstZombie(s.procs, Cur(s, c), p) && p != Cur(s, c)
    case WaitFails(c) =>
      Running(s, c) && !Pr(s, c).pc.Forking? && !ZombieChild(s.procs, Cur(s, c))
      && (!HasKids(s.procs, Cur(s, c)) || Pr(s, c).killed)
    case WaitSleeps(c) =>
      Running(s, c) && !Pr(s, c).pc.Forking? && !ZombieChild(s.procs, Cur(s, c)) && HasKids(s.procs, Cur(s, c))
      && !Pr(s, c).killed
    case Yield(c) => Running(s, c)
    case Sleep(c, n) => Running(s, c)
    case Wakeup(c, n) => Running(s, c)
    case Kill(c, pid) => Running(s, c)
    case Schedule(c, p) => c < |s.cpus| && s.cpus[c] == Null && p < |s.procs| && s.procs[p].state == RUNNABLE
  }

  /* kill: the first slot with that pid. */
  predicate FirstPid(procs: seq<Proc>, pid: nat, i: nat) {
    i < |procs| && procs[i].pid == pid && forall j :: 0 <= j < i ==> procs[j].pid != pid
  }

  function Victim(pr: Proc): Proc {
    pr.(killed := true, state := if pr.state == SLEEPING then RUNNABLE else pr.state)
  }

  /* The whole table after kill. */
  function Killed(procs: seq<Proc>, pid: nat): seq<Proc> {
    seq(|procs|, i requires 0 <= i < |procs| => if FirstPid(procs, pid, i) then Victim(procs[i]) else procs[i])
  }

  /* The current process gives up cpu c in state st. */
  function Switch(s: State, c: nat, pr: Proc): State
    requires Running(s, c)
  {
    Put(s, Cur(s, c), pr).(cpus := s.cpus[c := Null])
  }

  /* The slot of a reaped process. */
  function Emptied(pr: Proc): Proc {
    pr.(state := UNUSED, pid := 0, parent := Null, kstack := 0, killed := false)
  }

  function Apply(s: State, a: Action): State
    requires Enabled(s, a)
  {
    match a
    case ForkAlloc(c, np) =>
      var s1 := Put(s, np, s.procs[np].(state := EMBRYO, pid := s.nextpid)).(nextpid := s.nextpid + 1);
      Put(s1, Cur(s, c), Pr(s, c).(pc := Forking(np, 0)))
    case ForkStack(c, ok) =>
      var np := Pr(s, c).pc.np;
      if ok then
        var s1 := Put(s, np, s.procs[np].(kstack := s.nextpage)).(nextpage := s.nextpage + 1);
        Put(s1, Cur(s, c), Pr(s, c).(pc := Forking(np, 1)))
      else
        Put(Put(s, np, s.procs[np].(kstack := 0, state := UNUSED)), Cur(s, c), Pr(s, c).(pc := User))
    case ForkCopy(c, ok) =>
      var np := Pr(s, c).pc.np;
      if ok then
        var s1 := Put(s, np, s.procs[np].(pgdir := s.nextpage, parent := Slot(Cur(s, c)))).(nextpage := s.nextpage + 1);
        Put(s1, Cur(s, c), Pr(s, c).(pc := Forking(np, 2)))
      else
        var s1 := Put(s, np, s.procs[np].(kstack := 0, state := UNUSED)).(freed := s.freed + [s.procs[np].kstack]);
        Put(s1, Cur(s, c), Pr(s, c).(pc := User))
    case ForkDone(c) =>
      var np := Pr(s, c).pc.np;
      Put(Put(s, np, s.procs[np].(state := RUNNABLE, pc := User)), Cur(s, c), Pr(s, c).(pc := User))
    case Exit(c) =>
      s.(procs := Exited(s.procs, Cur(s, c), s.init), cpus := s.cpus[c := Null], exited := s.exited + [Pr(s, c).pid])
    case Reap(c, p) =>
      var s1 := Put(s, p, Emptied(s.procs[p]));
      Put(s1, Cur(s, c), Pr(s, c).(pc := User)).(reaped := s.reaped + [s.procs[p].pid],
                                                 freed := s.freed + [s.procs[p].kstack, s.procs[p].pgdir])
    case WaitFails(c) => Put(s, Cur(s, c), Pr(s, c).(pc := User))
    case WaitSleeps(c) => Switch(s, c, Pr(s, c).(pc := InWait, state := SLEEPING, chan := ProcChan(Cur(s, c))))
    case Yield(c) => Switch(s, c, Pr(s, c).(state := RUNNABLE))
    case Sleep(c, n) => Switch(s, c, Pr(s, c).(state := SLEEPING, chan := Other(n)))
    case Wakeup(c, n) => s.(procs := Woken(s.procs, Other(n)))
    case Kill(c, pid) => s.(procs := Killed(s.procs, pid))
    case Schedule(c, p) => Put(s, p, s.procs[p].(state := RUNNING, chan := NoChan)).(cpus := s.cpus[c := Slot(p)])
  }

  // ----- the invariant

  predicate OnCpu(cpus: seq<Ref>, p: nat) {
    exists c :: 0 <= c < |cpus| && cpus[c] == Slot(p)
  }

  /* RUNNING means on exactly one cpu. */
  ghost predicate CpuOk(procs: seq<Proc>, cpus: seq<Ref>) {
    && (forall c :: 0 <= c < |cpus| && cpus[c].Slot? ==> cpus[c].i < |procs| && procs[cpus[c].i].state == RUNNING)
    && (forall c, d :: 0 <= c < d < |cpus| && cpus[c].Slot? ==> cpus[c] != cpus[d])
    && (forall p :: 0 <= p < |procs| && procs[p].state == RUNNING ==> OnCpu(cpus, p))
  }

  /* Every parent is alive, so zombies have no children; only init has no parent. */
  ghost predicate ParentOk(procs: seq<Proc>, init: nat) {
    && init < |procs| && Alive(procs[init]) && procs[init].parent == Null
    && (forall p :: 0 <= p < |procs| && procs[p].parent.Slot? ==>
          procs[p].parent.i < |procs| && procs[p].parent.i != p && Alive(procs[procs[p].parent.i]))
    && (forall p :: 0 <= p < |procs| && p != init && (Alive(procs[p]) || procs[p].state == ZOMBIE) ==>
          procs[p].parent.Slot?)
    && (forall p :: 0 <= p < |procs| && procs[p].state == UNUSED ==> procs[p].parent == Null)
  }

  /* A process in fork is alive and alone works on an embryo. */
  ghost predicate ForkOk(procs: seq<Proc>) {
    && (forall p :: 0 <= p < |procs| && procs[p].pc.Forking? ==>
          Alive(procs[p]) && EmbryoOf(procs, p, procs[p].pc.np, procs[p].pc.stage))
    && (forall p, q :: 0 <= p < q < |procs| && procs[p].pc.Forking? && procs[q].pc.Forking? ==>
          procs[p].pc.np != procs[q].pc.np)
  }

  predicate EmbryoOf(procs: seq<Proc>, p: nat, np: nat, stage: nat) {
    && np < |procs| && np != p && procs[np].state == EMBRYO && stage <= 2 && !procs[np].pc.Forking?
    && procs[np].parent == (if stage == 2 then Slot(p) else Null)
    && (procs[np].kstack != 0 <==> stage > 0)
  }

  /* Nobody sleeps in wait while a child is a zombie. */
  ghost predicate WaitOk(procs: seq<Proc>) {
    forall p, q :: 0 <= p < |procs| && 0 <= q < |procs| && procs[q].state == SLEEPING && procs[q].chan.ProcChan? ==>
      procs[q].chan.p == q && !IsZombieChild(procs[p], q)
  }

  predicate Distinct(xs: seq<nat>) {
    forall i, j :: 0 <= i < j < |xs| ==> xs[i] != xs[j]
  }

  predicate ZombieWith(procs: seq<Proc>, pid: nat) {
    exists p :: 0 <= p < |procs| && procs[p].state == ZOMBIE && procs[p].pid == pid
  }

  /* Pids are unique; an exited pid is a zombie until it is reaped, which happens once. */
  ghost predicate PidOk(procs: seq<Proc>, nextpid: nat, exited: seq<nat>, reaped: seq<nat>) {
    && nextpid > 0
    && (forall p :: 0 <= p < |procs| && procs[p].state != UNUSED ==> 0 < procs[p].pid < nextpid)
    && (forall p, q :: 0 <= p < q < |procs| && procs[p].state != UNUSED && procs[q].state != UNUSED ==>
          procs[p].pid != procs[q].pid)
    && Distinct(exited) && Distinct(reaped)
    && (forall x :: x in exited ==> x < nextpid) && (forall x :: x in reaped ==> x in exited)
    && (forall p :: 0 <= p < |procs| && procs[p].state != UNUSED ==>
          (procs[p].pid in exited <==> procs[p].state == ZOMBIE) && procs[p].pid !in reaped)
    && (forall x :: x in exited && x !in reaped ==> ZombieWith(procs, x))
  }

  predicate OwnsDir(pr: Proc) {
    Alive(pr) || pr.state == ZOMBIE || (pr.state == EMBRYO && pr.parent.Slot?)
  }

  /* The stack and the page directory that a slot still has to give back. */
  function Owns(pr: Proc): set<nat> {
    (if pr.kstack != 0 then {pr.kstack} else {}) + (if OwnsDir(pr) then {pr.pgdir} else {})
  }

  predicate OwnsOk(pr: Proc, nextpage: nat, freed: seq<nat>) {
    && (pr.kstack != 0 ==> pr.kstack < nextpage && pr.kstack !in freed)
    && (OwnsDir(pr) ==> 0 < pr.pgdir < nextpage && pr.pgdir !in freed && pr.pgdir != pr.kstack)
    && (Alive(pr) || pr.state == ZOMBIE ==> pr.kstack != 0) && (pr.state == UNUSED ==> pr.kstack == 0)
  }

  predicate Owned(procs: seq<Proc>, y: nat) {
    exists p :: 0 <= p < |procs| && y in Owns(procs[p])
  }

  /* Every page handed out (0 is none) has been given back or still has an owner. */
  ghost predicate NoLeak(procs: seq<Proc>, nextpage: nat, freed: seq<nat>) {
    forall y: nat :: 0 < y < nextpage && y !in freed ==> Owned(procs, y)
  }

  ghost predicate PagesOk(procs: seq<Proc>, nextpage: nat, freed: seq<nat>) {
    && nextpage > 0 && Distinct(freed) && (forall x :: x in freed ==> x < nextpage)
    && (forall p :: 0 <= p < |procs| ==> OwnsOk(procs[p], nextpage, freed))
    && (forall p, q :: 0 <= p < q < |procs| ==> Owns(procs[p]) !! Owns(procs[q]))
    && NoLeak(procs, nextpage, freed)
  }

  ghost predicate Inv(s: State) {
    && CpuOk(s.procs, s.cpus) && ParentOk(s.procs, s.init) && ForkOk(s.procs) && WaitOk(s.procs)
    && PidOk(s.procs, s.nextpid, s.exited, s.reaped) && PagesOk(s.procs, s.nextpage, s.freed)
  }

  // ----- one slot changes

  lemma CpuPut(procs: seq<Proc>, cpus: seq<Ref>, i: nat, x: Proc)
    requires CpuOk(procs, cpus) && i < |procs| && (x.state == RUNNING <==> procs[i].state == RUNNING)
    ensures CpuOk(procs[i := x], cpus)
  {
  }

  lemma ParentPut(procs: seq<Proc>, init: nat, i: nat, x: Proc)
    requires ParentOk(procs, init) && i < |procs|
    requires Alive(procs[i]) ==> Alive(x)
    requires x.parent.Slot? ==> x.parent.i < |procs| && x.parent.i != i && Alive(procs[x.parent.i])
    requires if i == init then x.parent == Null else (Alive(x) || x.state == ZOMBIE ==> x.parent.Slot?)
    requires x.state == UNUSED ==> x.parent == Null
    ensures ParentOk(procs[i := x], init)
  {
  }

  lemma WaitPut(procs: seq<Proc>, i: nat, x: Proc)
    requires WaitOk(procs) && i < |procs|
    requires x.state == SLEEPING && x.chan.ProcChan? ==> x.chan.p == i && !ZombieChild(procs, i) && !IsZombieChild(x, i)
    requires x.state == ZOMBIE ==> (procs[i].state == ZOMBIE && procs[i].parent == x.parent)
    ensures WaitOk(procs[i := x])
  {
  }

  lemma PidPut(procs: seq<Proc>, nextpid: nat, exited: seq<nat>, reaped: seq<nat>, i: nat, x: Proc)
    requires PidOk(procs, nextpid, exited, reaped) && i < |procs|
    requires x.state != UNUSED ==> procs[i].state != UNUSED && x.pid == procs[i].pid
    requires x.state == ZOMBIE <==> procs[i].state == ZOMBIE
    ensures PidOk(procs[i := x], nextpid, exited, reaped)
  {
    forall y | y in exited && y !in reaped ensures ZombieWith(procs[i := x], y) {
      var p :| 0 <= p < |procs| && procs[p].state == ZOMBIE && procs[p].pid == y;
      assert procs[i := x][p].state == ZOMBIE && procs[i := x][p].pid == y;
    }
  }

  /* Replacing was by x drops no page: one it owned, or a new one, is x's or has been freed. */
  ghost predicate NothingLost(was: Proc, nextpage: nat, freed: seq<nat>, x: Proc, nextpage': nat, freed': seq<nat>) {
    && (forall y :: y in freed ==> y in freed')
    && (forall y :: y in Owns(was) ==> y in Owns(x) || y in freed')
    && (forall y: nat :: nextpage <= y < nextpage' ==> y in Owns(x))
  }

  lemma StillOwned(procs: seq<Proc>, nextpage: nat, freed: seq<nat>, i: nat, x: Proc, nextpage': nat, freed': seq<nat>)
    requires NoLeak(procs, nextpage, freed) && i < |procs|
             && NothingLost(procs[i], nextpage, freed, x, nextpage', freed')
    ensures NoLeak(procs[i := x], nextpage', freed')
  {
    hide Owns;
    forall y: nat | 0 < y < nextpage' && y !in freed' ensures Owned(procs[i := x], y) {
      assert procs[i := x][i] == x;
      if y < nextpage {
        var p :| 0 <= p < |procs| && y in Owns(procs[p]);
        assert procs[i := x][p] == if p == i then x else procs[p];
      }
    }
  }

  /* Another slot is not concerned by what slot `was` gives back or gains. */
  lemma SlotKept(a: Proc, was: Proc, x: Proc, nextpage: nat, freed: seq<nat>, nextpage': nat, freed': seq<nat>)
    requires OwnsOk(a, nextpage, freed) && Owns(a) !! Owns(was) && nextpage <= nextpage'
    requires forall y :: y in freed' ==> y in freed || y in Owns(was)
    requires forall y :: y in Owns(x) ==> y in Owns(was) || y >= nextpage
    ensures OwnsOk(a, nextpage', freed') && Owns(a) !! Owns(x)
  {
    hide OwnsDir;
    assert forall y :: y in Owns(a) ==> y < nextpage && y !in freed;
    assert forall y :: y in Owns(a) ==> y !in freed' && y !in Owns(x);
  }

  lemma PagesPut(procs: seq<Proc>, nextpage: nat, freed: seq<nat>, i: nat, x: Proc, nextpage': nat, freed': seq<nat>)
    requires PagesOk(procs, nextpage, freed) && i < |procs| && nextpage <= nextpage'
    requires OwnsOk(x, nextpage', freed') && Distinct(freed')
    requires forall y :: y in freed' ==> y in freed || y in Owns(procs[i])
    requires forall y :: y in Owns(x) ==> y in Owns(procs[i]) || y >= nextpage
    requires NothingLost(procs[i], nextpage, freed, x, nextpage', freed')
    ensures PagesOk(procs[i := x], nextpage', freed')
  {
    hide OwnsDir;
    hide NoLeak;
    hide NothingLost;
    hide Distinct;
    StillOwned(procs, nextpage, freed, i, x, nextpage', freed');
    forall p | 0 <= p < |procs| && p != i ensures OwnsOk(procs[p], nextpage', freed') && Owns(procs[p]) !! Owns(x) {
      assert p < i || i < p;
      SlotKept(procs[p], procs[i], x, nextpage, freed, nextpage', freed');
    }
    FreedBelow(procs[i], nextpage, freed, nextpage', freed');
    hide OwnsOk;
    hide Owns;
  }

  lemma FreedBelow(was: Proc, nextpage: nat, freed: seq<nat>, nextpage': nat, freed': seq<nat>)
    requires OwnsOk(was, nextpage, freed) && nextpage <= nextpage' && (forall y :: y in freed ==> y < nextpage)
    requires forall y :: y in freed' ==> y in freed || y in Owns(was)
    ensures forall y :: y in freed' ==> y < nextpage'
  {
  }

  /* Everything but ForkOk. */
  ghost predicate Core(s: State) {
    && CpuOk(s.procs, s.cpus) && ParentOk(s.procs, s.init) && WaitOk(s.procs)
    && PidOk(s.procs, s.nextpid, s.exited, s.reaped) && PagesOk(s.procs, s.nextpage, s.freed)
  }

  /* What the invariants say of one slot. */
  lemma SlotFacts(s: State, i: nat)
    requires Core(s) && i < |s.procs|
    ensures var pr := s.procs[i];
            && (pr.parent.Slot? ==> pr.parent.i < |s.procs| && pr.parent.i != i && Alive(s.procs[pr.parent.i]))
            && (i != s.init && (Alive(pr) || pr.state == ZOMBIE) ==> pr.parent.Slot?)
            && (i == s.init ==> Alive(pr) && pr.parent == Null) && (pr.state == UNUSED ==> pr.parent == Null)
            && (pr.state == SLEEPING && pr.chan.ProcChan? ==>
                  pr.chan.p == i && !ZombieChild(s.procs, i) && !IsZombieChild(pr, i))
            && OwnsOk(pr, s.nextpage, s.freed) && Distinct(s.freed) && (forall x :: x in s.freed ==> x < s.nextpage)
            && (pr.state != UNUSED ==> 0 < pr.pid < s.nextpid)
  {
  }

  lemma PcPut(s: State, i: nat, pc: Pc)
    requires Core(s) && i < |s.procs|
    ensures Core(Put(s, i, s.procs[i].(pc := pc)))
  {
    hide CpuOk;
    hide ParentOk;
    hide WaitOk;
    hide PidOk;
    hide PagesOk;
    var x := s.procs[i].(pc := pc);
    SlotFacts(s, i);
    CpuPut(s.procs, s.cpus, i, x);
    ParentPut(s.procs, s.init, i, x);
    WaitPut(s.procs, i, x);
    PidPut(s.procs, s.nextpid, s.exited, s.reaped, i, x);
    PagesPut(s.procs, s.nextpage, s.freed, i, x, s.nextpage, s.freed);
  }

  // ----- fork

  lemma PidAlloc(procs: seq<Proc>, nextpid: nat, exited: seq<nat>, reaped: seq<nat>, i: nat, x: Proc)
    requires PidOk(procs, nextpid, exited, reaped) && i < |procs| && procs[i].state == UNUSED
    requires x.state == EMBRYO && x.pid == nextpid
    ensures PidOk(procs[i := x], nextpid + 1, exited, reaped)
  {
    forall y | y in exited && y !in reaped ensures ZombieWith(procs[i := x], y) {
      var p :| 0 <= p < |procs| && procs[p].state == ZOMBIE && procs[p].pid == y;
      assert procs[i := x][p].state == ZOMBIE && procs[i := x][p].pid == y;
    }
  }

  lemma ForkAllocKeeps(s: State, c: nat, np: nat)
    requires Inv(s) && Enabled(s, ForkAlloc(c, np))
    ensures Inv(Apply(s, ForkAlloc(c, np)))
  {
    hide CpuOk;
    hide ParentOk;
    hide WaitOk;
    hide PidOk;
    hide PagesOk;
    var x := s.procs[np].(state := EMBRYO, pid := s.nextpid);
    var s1 := Put(s, np, x).(nextpid := s.nextpid + 1);
    SlotFacts(s, np);
    SlotFacts(s, Cur(s, c));
    RunningAlive(s, c);
    CpuPut(s.procs, s.cpus, np, x);
    ParentPut(s.procs, s.init, np, x);
    WaitPut(s.procs, np, x);
    PidAlloc(s.procs, s.nextpid, s.exited, s.reaped, np, x);
    PagesPut(s.procs, s.nextpage, s.freed, np, x, s.nextpage, s.freed);
    PcPut(s1, Cur(s, c), Forking(np, 0));
  }

  lemma RunningAlive(s: State, c: nat)
    requires CpuOk(s.procs, s.cpus) && Running(s, c)
    ensures Pr(s, c).state == RUNNING
  {
  }

  lemma Stage(s: State, c: nat, stage: nat)
    requires Inv(s) && InStage(s, c, stage)
    ensures var np := Pr(s, c).pc.np;
            && s.procs[np].state == EMBRYO && s.procs[np].parent == (if stage == 2 then Slot(Cur(s, c)) else Null)
            && (s.procs[np].kstack != 0 <==> stage > 0) && Pr(s, c).state == RUNNING && stage <= 2 && np != s.init
            && (stage == 0 ==> Owns(s.procs[np]) == {})
  {
    hide PidOk;
    hide PagesOk;
    hide WaitOk;
  }

  lemma ForkStackKeeps(s: State, c: nat, ok: bool)
    requires Inv(s) && Enabled(s, ForkStack(c, ok))
    ensures Inv(Apply(s, ForkStack(c, ok)))
  {
    hide CpuOk;
    hide ParentOk;
    hide WaitOk;
    hide PidOk;
    hide PagesOk;
    var np := Pr(s, c).pc.np;
    var x := if ok then s.procs[np].(kstack := s.nextpage) else s.procs[np].(kstack := 0, state := UNUSED);
    var s1 := if ok then Put(s, np, x).(nextpage := s.nextpage + 1) else Put(s, np, x);
    Stage(s, c, 0);
    SlotFacts(s, np);
    CpuPut(s.procs, s.cpus, np, x);
    ParentPut(s.procs, s.init, np, x);
    WaitPut(s.procs, np, x);
    PidPut(s.procs, s.nextpid, s.exited, s.reaped, np, x);
    PagesPositive(s);
    PagesPut(s.procs, s.nextpage, s.freed, np, x, s1.nextpage, s.freed);
    PcPut(s1, Cur(s, c), if ok then Forking(np, 1) else User);
  }

  lemma PagesPositive(s: State)
    requires Core(s)
    ensures s.nextpage > 0 && s.nextpage !in s.freed
  {
  }

  lemma ForkCopied(s: State, c: nat)
    requires Inv(s) && Enabled(s, ForkCopy(c, true))
    ensures Inv(Apply(s, ForkCopy(c, true)))
  {
    hide CpuOk;
    hide ParentOk;
    hide WaitOk;
    hide PidOk;
    hide PagesOk;
    var np := Pr(s, c).pc.np;
    var x := s.procs[np].(pgdir := s.nextpage, parent := Slot(Cur(s, c)));
    var s1 := Put(s, np, x).(nextpage := s.nextpage + 1);
    Stage(s, c, 1);
    SlotFacts(s, np);
    CpuPut(s.procs, s.cpus, np, x);
    ParentPut(s.procs, s.init, np, x);
    WaitPut(s.procs, np, x);
    PidPut(s.procs, s.nextpid, s.exited, s.reaped, np, x);
    PagesPositive(s);
    PagesPut(s.procs, s.nextpage, s.freed, np, x, s1.nextpage, s1.freed);
    PcPut(s1, Cur(s, c), Forking(np, 2));
  }

  lemma ForkCopyFailed(s: State, c: nat)
    requires Inv(s) && Enabled(s, ForkCopy(c, false))
    ensures Inv(Apply(s, ForkCopy(c, false)))
  {
    hide CpuOk;
    hide ParentOk;
    hide WaitOk;
    hide PidOk;
    hide PagesOk;
    var np := Pr(s, c).pc.np;
    var x := s.procs[np].(kstack := 0, state := UNUSED);
    var s1 := Put(s, np, x).(freed := s.freed + [s.procs[np].kstack]);
    Stage(s, c, 1);
    SlotFacts(s, np);
    CpuPut(s.procs, s.cpus, np, x);
    ParentPut(s.procs, s.init, np, x);
    WaitPut(s.procs, np, x);
    PidPut(s.procs, s.nextpid, s.exited, s.reaped, np, x);
    PagesPositive(s);
    PagesPut(s.procs, s.nextpage, s.freed, np, x, s1.nextpage, s1.freed);
    PcPut(s1, Cur(s, c), User);
  }

  lemma ForkDoneKeeps(s: State, c: nat)
    requires Inv(s) && Enabled(s, ForkDone(c))
    ensures Inv(Apply(s, ForkDone(c)))
  {
    hide CpuOk;
    hide ParentOk;
    hide WaitOk;
    hide PidOk;
    hide PagesOk;
    var np := Pr(s, c).pc.np;
    var x := s.procs[np].(state := RUNNABLE, pc := User);
    var s1 := Put(s, np, x);
    Stage(s, c, 2);
    SlotFacts(s, np);
    CpuPut(s.procs, s.cpus, np, x);
    ParentPut(s.procs, s.init, np, x);
    WaitPut(s.procs, np, x);
    PidPut(s.procs, s.nextpid, s.exited, s.reaped, np, x);
    PagesPut(s.procs, s.nextpage, s.freed, np, x, s.nextpage, s.freed);
    PcPut(s1, Cur(s, c), User);
  }

  // ----- giving up and getting a cpu

  lemma CpuLeave(procs: seq<Proc>, cpus: seq<Ref>, c: nat, x: Proc)
    requires CpuOk(procs, cpus) && c < |cpus| && cpus[c].Slot? && cpus[c].i < |procs| && x.state != RUNNING
    ensures CpuOk(procs[cpus[c].i := x], cpus[c := Null])
  {
    var procs', cpus' := procs[cpus[c].i := x], cpus[c := Null];
    forall p | 0 <= p < |procs| && procs'[p].state == RUNNING ensures OnCpu(cpus', p) {
      var d :| 0 <= d < |cpus| && cpus[d] == Slot(p);
      assert cpus'[d] == Slot(p);
    }
  }

  lemma CpuEnter(procs: seq<Proc>, cpus: seq<Ref>, c: nat, p: nat, x: Proc)
    requires CpuOk(procs, cpus) && c < |cpus| && cpus[c] == Null && p < |procs| && procs[p].state != RUNNING
             && x.state == RUNNING
    ensures CpuOk(procs[p := x], cpus[c := Slot(p)])
  {
    var procs', cpus' := procs[p := x], cpus[c := Slot(p)];
    forall q | 0 <= q < |procs| && procs'[q].state == RUNNING ensures OnCpu(cpus', q) {
      if q == p {
        assert cpus'[c] == Slot(p);
      } else {
        var d :| 0 <= d < |cpus| && cpus[d] == Slot(q);
        assert cpus'[d] == Slot(q);
      }
    }
  }

  /* yield, sleep and the sleep in wait. */
  lemma SwitchKeeps(s: State, c: nat, x: Proc)
    requires Inv(s) && Running(s, c) && (x.state == RUNNABLE || x.state == SLEEPING)
    requires x == Pr(s, c).(state := x.state, chan := x.chan, pc := x.pc)
    requires x.pc == Pr(s, c).pc || (x.pc == InWait && !Pr(s, c).pc.Forking?)
    requires x.state == SLEEPING && x.chan.ProcChan? ==> x.chan.p == Cur(s, c) && !ZombieChild(s.procs, Cur(s, c))
    ensures Inv(Switch(s, c, x))
  {
    hide CpuOk;
    hide ParentOk;
    hide WaitOk;
    hide PidOk;
    hide PagesOk;
    var i := Cur(s, c);
    SlotFacts(s, i);
    RunningAlive(s, c);
    CpuLeave(s.procs, s.cpus, c, x);
    ParentPut(s.procs, s.init, i, x);
    WaitPut(s.procs, i, x);
    PidPut(s.procs, s.nextpid, s.exited, s.reaped, i, x);
    PagesPut(s.procs, s.nextpage, s.freed, i, x, s.nextpage, s.freed);
  }

  lemma ScheduleKeeps(s: State, c: nat, p: nat)
    requires Inv(s) && Enabled(s, Schedule(c, p))
    ensures Inv(Apply(s, Schedule(c, p)))
  {
    hide CpuOk;
    hide ParentOk;
    hide WaitOk;
    hide PidOk;
    hide PagesOk;
    var x := s.procs[p].(state := RUNNING, chan := NoChan);
    SlotFacts(s, p);
    CpuEnter(s.procs, s.cpus, c, p, x);
    ParentPut(s.procs, s.init, p, x);
    WaitPut(s.procs, p, x);
    PidPut(s.procs, s.nextpid, s.exited, s.reaped, p, x);
    PagesPut(s.procs, s.nextpage, s.freed, p, x, s.nextpage, s.freed);
  }

  // ----- wakeup and kill

  /* Some sleepers became runnable, and some processes were marked killed. */
  ghost predicate Rouses(procs: seq<Proc>, procs': seq<Proc>) {
    |procs'| == |procs| && forall i :: 0 <= i < |procs| ==> RousedTo(procs[i], procs'[i])
  }

  predicate RousedTo(pr: Proc, pr': Proc) {
    && pr' == pr.(state := pr'.state, killed := pr'.killed)
    && (pr'.state == pr.state || (pr.state == SLEEPING && pr'.state == RUNNABLE))
  }

  lemma RousePids(procs: seq<Proc>, procs': seq<Proc>, nextpid: nat, exited: seq<nat>, reaped: seq<nat>)
    requires Rouses(procs, procs') && PidOk(procs, nextpid, exited, reaped)
    ensures PidOk(procs', nextpid, exited, reaped)
  {
    forall y | y in exited && y !in reaped ensures ZombieWith(procs', y) {
      var p :| 0 <= p < |procs| && procs[p].state == ZOMBIE && procs[p].pid == y;
      assert RousedTo(procs[p], procs'[p]);
    }
  }

  lemma RouseForks(procs: seq<Proc>, procs': seq<Proc>)
    requires Rouses(procs, procs') && ForkOk(procs)
    ensures ForkOk(procs')
  {
    forall p | 0 <= p < |procs| && procs'[p].pc.Forking?
      ensures Alive(procs'[p]) && EmbryoOf(procs', p, procs'[p].pc.np, procs'[p].pc.stage)
    {
      assert RousedTo(procs[p], procs'[p]);
      assert EmbryoOf(procs, p, procs[p].pc.np, procs[p].pc.stage);
      assert RousedTo(procs[procs[p].pc.np], procs'[procs[p].pc.np]);
    }
    forall p, q | 0 <= p < q < |procs| && procs'[p].pc.Forking? && procs'[q].pc.Forking?
      ensures procs'[p].pc.np != procs'[q].pc.np
    {
      assert RousedTo(procs[p], procs'[p]) && RousedTo(procs[q], procs'[q]);
    }
  }

  lemma RousePages(procs: seq<Proc>, procs': seq<Proc>, nextpage: nat, freed: seq<nat>)
    requires Rouses(procs, procs') && PagesOk(procs, nextpage, freed)
    ensures PagesOk(procs', nextpage, freed)
  {
    forall p | 0 <= p < |procs| ensures Owns(procs'[p]) == Owns(procs[p]) && OwnsOk(procs'[p], nextpage, freed) {
      assert OwnsOk(procs[p], nextpage, freed);
      assert RousedTo(procs[p], procs'[p]);
    }
  }

  lemma RouseOthers(procs: seq<Proc>, procs': seq<Proc>, cpus: seq<Ref>, init: nat, nextpage: nat, freed: seq<nat>)
    requires Rouses(procs, procs')
    requires CpuOk(procs, cpus) && ParentOk(procs, init) && WaitOk(procs) && PagesOk(procs, nextpage, freed)
    ensures CpuOk(procs', cpus) && ParentOk(procs', init) && WaitOk(procs') && PagesOk(procs', nextpage, freed)
  {
    hide PagesOk;
    RousePages(procs, procs', nextpage, freed);
    forall p | 0 <= p < |procs| ensures Alive(procs'[p]) <==> Alive(procs[p]) {
      assert RousedTo(procs[p], procs'[p]);
    }
  }

  lemma RouseKeeps(s: State, procs': seq<Proc>)
    requires Inv(s) && Rouses(s.procs, procs')
    ensures Inv(s.(procs := procs'))
  {
    hide CpuOk;
    hide ParentOk;
    hide WaitOk;
    hide PidOk;
    hide PagesOk;
    hide ForkOk;
    RousePids(s.procs, procs', s.nextpid, s.exited, s.reaped);
    RouseForks(s.procs, procs');
    RouseOthers(s.procs, procs', s.cpus, s.init, s.nextpage, s.freed);
  }

  // ----- wait finds a zombie

  lemma PidReap(procs: seq<Proc>, nextpid: nat, exited: seq<nat>, reaped: seq<nat>, i: nat, x: Proc)
    requires PidOk(procs, nextpid, exited, reaped) && i < |procs| && procs[i].state == ZOMBIE && x.state == UNUSED
    ensures PidOk(procs[i := x], nextpid, exited, reaped + [procs[i].pid])
  {
    forall y | y in exited && y !in reaped + [procs[i].pid] ensures ZombieWith(procs[i := x], y) {
      var p :| 0 <= p < |procs| && procs[p].state == ZOMBIE && procs[p].pid == y;
      assert p != i;
      assert procs[i := x][p].state == ZOMBIE && procs[i := x][p].pid == y;
    }
  }

  lemma ReapKeeps(s: State, c: nat, p: nat)
    requires Inv(s) && Enabled(s, Reap(c, p))
    ensures Inv(Apply(s, Reap(c, p)))
  {
    hide CpuOk;
    hide ParentOk;
    hide WaitOk;
    hide PidOk;
    hide PagesOk;
    var x := Emptied(s.procs[p]);
    var s1 := Put(s, p, x).(reaped := s.reaped + [s.procs[p].pid],
                            freed := s.freed + [s.procs[p].kstack, s.procs[p].pgdir]);
    SlotFacts(s, p);
    RunningAlive(s, c);
    CpuPut(s.procs, s.cpus, p, x);
    ParentPut(s.procs, s.init, p, x);
    WaitPut(s.procs, p, x);
    PidReap(s.procs, s.nextpid, s.exited, s.reaped, p, x);
    PagesPut(s.procs, s.nextpage, s.freed, p, x, s.nextpage, s1.freed);
    PcPut(s1, Cur(s, c), User);
  }

  // ----- exit

  function Foster(pr: Proc, cur: nat, init: nat): Proc {
    if pr.parent == Slot(cur) then pr.(parent := Slot(init)) else pr
  }

  /* The table after exit: cur is a zombie, its children are init's, and whoever waits for
     a zombie has been woken. */
  ghost predicate ExitedTo(procs: seq<Proc>, procs': seq<Proc>, cur: nat, init: nat) {
    && |procs'| == |procs| && cur < |procs| && procs'[cur] == procs[cur].(state := ZOMBIE)
    && (forall i :: 0 <= i < |procs| && i != cur ==> RousedTo(Foster(procs[i], cur, init), procs'[i]))
    && (forall i :: 0 <= i < |procs| && procs'[i].state == SLEEPING && procs'[i].chan.ProcChan? ==>
          Slot(procs'[i].chan.p) != procs[cur].parent && (ZombieChild(procs, cur) ==> procs'[i].chan.p != init))
  }

  lemma ExitSpec(procs: seq<Proc>, cur: nat, init: nat)
    requires cur < |procs| && procs[cur].state == RUNNING && procs[cur].parent != Slot(cur)
    ensures ExitedTo(procs, Exited(procs, cur, init), cur, init)
  {
    hide ZombieChild;
    var t1 := if procs[cur].parent.Slot? then Woken(procs, ProcChan(procs[cur].parent.i)) else procs;
    var t2 := Adopted(t1, cur, init);
    var t3 := if ZombieChild(procs, cur) then Woken(t2, ProcChan(init)) else t2;
    forall i | 0 <= i < |procs| ensures RousedTo(procs[i], t1[i]) && RousedTo(Foster(procs[i], cur, init), t2[i]) {
    }
    forall i | 0 <= i < |procs| ensures RousedTo(Foster(procs[i], cur, init), t3[i]) {
    }
  }

  lemma ExitCpu(procs: seq<Proc>, procs': seq<Proc>, cpus: seq<Ref>, c: nat, cur: nat, init: nat)
    requires ExitedTo(procs, procs', cur, init) && CpuOk(procs, cpus) && c < |cpus| && cpus[c] == Slot(cur)
    ensures CpuOk(procs', cpus[c := Null])
  {
    CpuLeave(procs, cpus, c, procs[cur].(state := ZOMBIE));
    var t := procs[cur := procs[cur].(state := ZOMBIE)];
    assert forall i :: 0 <= i < |procs| ==> (procs'[i].state == RUNNING <==> t[i].state == RUNNING);
  }

  /* What exit leaves alone in every other slot. */
  lemma ExitOthers(procs: seq<Proc>, procs': seq<Proc>, cur: nat, init: nat)
    requires ExitedTo(procs, procs', cur, init)
    ensures forall i :: 0 <= i < |procs| && i != cur ==>
              && (Alive(procs'[i]) <==> Alive(procs[i])) && (procs'[i].state == ZOMBIE <==> procs[i].state == ZOMBIE)
              && (procs'[i].state == UNUSED <==> procs[i].state == UNUSED) && procs'[i].pid == procs[i].pid
              && procs'[i].parent == Foster(procs[i], cur, init).parent
  {
    assert forall i :: 0 <= i < |procs| && i != cur ==> RousedTo(Foster(procs[i], cur, init), procs'[i]);
  }

  lemma ExitParent(procs: seq<Proc>, procs': seq<Proc>, cur: nat, init: nat)
    requires ExitedTo(procs, procs', cur, init) && ParentOk(procs, init) && cur != init && Alive(procs[cur])
    ensures ParentOk(procs', init)
  {
    hide ZombieChild;
    hide RousedTo;
    ExitOthers(procs, procs', cur, init);
    forall p | 0 <= p < |procs| && procs'[p].parent.Slot?
      ensures procs'[p].parent.i < |procs| && procs'[p].parent.i != p && Alive(procs'[procs'[p].parent.i])
    {
      assert procs[p].parent.Slot?;
    }
  }

  lemma ExitWait(procs: seq<Proc>, procs': seq<Proc>, cur: nat, init: nat)
    requires ExitedTo(procs, procs', cur, init) && WaitOk(procs)
    ensures WaitOk(procs')
  {
    forall p, q | 0 <= p < |procs| && 0 <= q < |procs| && procs'[q].state == SLEEPING && procs'[q].chan.ProcChan?
      ensures procs'[q].chan.p == q && !IsZombieChild(procs'[p], q)
    {
      assert RousedTo(Foster(procs[q], cur, init), procs'[q]);
      if p != cur {
        assert RousedTo(Foster(procs[p], cur, init), procs'[p]);
        assert IsZombieChild(procs[p], cur) ==> ZombieChild(procs, cur);
      }
    }
  }

  lemma ExitPid(procs: seq<Proc>, procs': seq<Proc>, cur: nat, init: nat, nextpid: nat, exited: seq<nat>,
                reaped: seq<nat>)
    requires ExitedTo(procs, procs', cur, init) && PidOk(procs, nextpid, exited, reaped) && Alive(procs[cur])
    ensures PidOk(procs', nextpid, exited + [procs[cur].pid], reaped)
  {
    ExitOthers(procs, procs', cur, init);
    assert procs'[cur].pid == procs[cur].pid && procs'[cur].state == ZOMBIE;
    PidExit(procs, procs', cur, nextpid, exited, reaped);
  }

  lemma PidExit(procs: seq<Proc>, procs': seq<Proc>, cur: nat, nextpid: nat, exited: seq<nat>, reaped: seq<nat>)
    requires PidOk(procs, nextpid, exited, reaped) && |procs'| == |procs| && cur < |procs| && Alive(procs[cur])
    requires procs'[cur].pid == procs[cur].pid && procs'[cur].state == ZOMBIE
    requires forall i :: 0 <= i < |procs| && i != cur ==>
               && (procs'[i].state == ZOMBIE <==> procs[i].state == ZOMBIE)
               && (procs'[i].state == UNUSED <==> procs[i].state == UNUSED) && procs'[i].pid == procs[i].pid
    ensures PidOk(procs', nextpid, exited + [procs[cur].pid], reaped)
  {
    var pid := procs[cur].pid;
    assert pid !in exited;
    forall y | y in exited + [pid] && y !in reaped ensures ZombieWith(procs', y) {
      if y in exited {
        var p :| 0 <= p < |procs| && procs[p].state == ZOMBIE && procs[p].pid == y;
        assert procs'[p].state == ZOMBIE && procs'[p].pid == y;
      } else {
        assert procs'[cur].state == ZOMBIE && procs'[cur].pid == y;
      }
    }
    forall p, q | 0 <= p < q < |procs| && procs'[p].state != UNUSED && procs'[q].state != UNUSED
      ensures procs'[p].pid != procs'[q].pid
    {
      assert procs[p].state != UNUSED && procs[q].state != UNUSED;
    }
    forall p | 0 <= p < |procs| && procs'[p].state != UNUSED
      ensures (procs'[p].pid in exited + [pid] <==> procs'[p].state == ZOMBIE) && procs'[p].pid !in reaped
    {
      assert procs[p].state != UNUSED;
      assert p < cur || p == cur || cur < p;
    }
  }

  lemma ExitPages(procs: seq<Proc>, procs': seq<Proc>, cur: nat, init: nat, nextpage: nat, freed: seq<nat>)
    requires ExitedTo(procs, procs', cur, init) && PagesOk(procs, nextpage, freed) && Alive(procs[cur])
    ensures PagesOk(procs', nextpage, freed)
  {
    forall i | 0 <= i < |procs| ensures Owns(procs'[i]) == Owns(procs[i]) && OwnsOk(procs'[i], nextpage, freed) {
      assert OwnsOk(procs[i], nextpage, freed);
      assert i != cur ==> RousedTo(Foster(procs[i], cur, init), procs'[i]);
    }
  }

  lemma ExitFork(procs: seq<Proc>, procs': seq<Proc>, cur: nat, init: nat)
    requires ExitedTo(procs, procs', cur, init) && ForkOk(procs) && procs[cur].pc == User && Alive(procs[cur])
    ensures ForkOk(procs')
  {
    forall p | 0 <= p < |procs| && procs'[p].pc.Forking?
      ensures p != cur && procs[p].pc == procs'[p].pc && Alive(procs'[p])
              && EmbryoOf(procs', p, procs'[p].pc.np, procs'[p].pc.stage)
    {
      assert p != cur;
      assert RousedTo(Foster(procs[p], cur, init), procs'[p]);
      var np := procs[p].pc.np;
      assert EmbryoOf(procs, p, np, procs[p].pc.stage);
      assert RousedTo(Foster(procs[np], cur, init), procs'[np]);
    }
  }

  lemma ExitKeeps(s: State, c: nat)
    requires Inv(s) && Enabled(s, Exit(c))
    ensures Inv(Apply(s, Exit(c)))
  {
    hide CpuOk;
    hide ParentOk;
    hide WaitOk;
    hide PidOk;
    hide PagesOk;
    hide ForkOk;
    hide ExitedTo;
    hide Exited;
    var cur := Cur(s, c);
    var procs' := Exited(s.procs, cur, s.init);
    SlotFacts(s, cur);
    RunningAlive(s, c);
    ExitSpec(s.procs, cur, s.init);
    ExitCpu(s.procs, procs', s.cpus, c, cur, s.init);
    ExitParent(s.procs, procs', cur, s.init);
    ExitWait(s.procs, procs', cur, s.init);
    ExitPid(s.procs, procs', cur, s.init, s.nextpid, s.exited, s.reaped);
    ExitPages(s.procs, procs', cur, s.init, s.nextpage, s.freed);
    ExitFork(s.procs, procs', cur, s.init);
  }

  // ----- every step, every run

  lemma WaitFailsKeeps(s: State, c: nat)
    requires Inv(s) && Enabled(s, WaitFails(c))
    ensures Inv(Apply(s, WaitFails(c)))
  {
    hide CpuOk;
    hide ParentOk;
    hide WaitOk;
    hide PidOk;
    hide PagesOk;
    PcPut(s, Cur(s, c), User);
  }

  lemma StepKeeps(s: State, a: Action)
    requires Inv(s) && Enabled(s, a)
    ensures Inv(Apply(s, a))
  {
    hide Inv;
    hide Exited;
    match a
    case ForkAlloc(c, np) => ForkAllocKeeps(s, c, np);
    case ForkStack(c, ok) => ForkStackKeeps(s, c, ok);
    case ForkCopy(c, ok) => if ok { ForkCopied(s, c); } else { ForkCopyFailed(s, c); }
    case ForkDone(c) => ForkDoneKeeps(s, c);
    case Exit(c) => ExitKeeps(s, c);
    case Reap(c, p) => ReapKeeps(s, c, p);
    case WaitFails(c) => WaitFailsKeeps(s, c);
    case WaitSleeps(c) => SwitchKeeps(s, c, Pr(s, c).(pc := InWait, state := SLEEPING, chan := ProcChan(Cur(s, c))));
    case Yield(c) => SwitchKeeps(s, c, Pr(s, c).(state := RUNNABLE));
    case Sleep(c, n) => SwitchKeeps(s, c, Pr(s, c).(state := SLEEPING, chan := Other(n)));
    case Wakeup(c, n) => RouseKeeps(s, Woken(s.procs, Other(n)));
    case Kill(c, pid) => RouseKeeps(s, Killed(s.procs, pid));
    case Schedule(c, p) => ScheduleKeeps(s, c, p);
  }

  predicate Runs(s: State, acts: seq<Action>)
    decreases |acts|
  {
    acts == [] || (Enabled(s, acts[0]) && Runs(Apply(s, acts[0]), acts[1..]))
  }

  function Final(s: State, acts: seq<Action>): State
    requires Runs(s, acts)
    decreases |acts|
  {
    if acts == [] then s else Final(Apply(s, acts[0]), acts[1..])
  }

  lemma {:induction false} RunsKeep(s: State, acts: seq<Action>)
    requires Inv(s) && Runs(s, acts)
    ensures Inv(Final(s, acts))
    decreases |acts|
  {
    hide Inv;
    hide Enabled;
    hide Apply;
    if acts != [] {
      StepKeeps(s, acts[0]);
      RunsKeep(Apply(s, acts[0]), acts[1..]);
    }
  }

  function Empty(): Proc {
    Proc(UNUSED, 0, Null, 0, 0, NoChan, false, User)
  }

  function InitProc(): Proc {
    Proc(RUNNABLE, 1, Null, 1, 2, NoChan, false, User)
  }

  /* After userinit: init is runnable in slot 0, every other slot is unused. */
  function Init(nproc: nat, ncpu: nat): State
    requires nproc > 0
  {
    State(seq(nproc, i => if i == 0 then InitProc() else Empty()),
          seq(ncpu, c => Null), 0, 2, 3, [], [], [])
  }

  lemma InitInv(nproc: nat, ncpu: nat)
    requires nproc > 0
    ensures Inv(Init(nproc, ncpu))
  {
    var s := Init(nproc, ncpu);
    assert s.procs[0] == InitProc();
    assert forall p :: 0 < p < |s.procs| ==> s.procs[p] == Empty();
    InitTable(s.procs, s.cpus);
  }

  lemma InitTable(procs: seq<Proc>, cpus: seq<Ref>)
    requires |procs| > 0 && procs[0] == InitProc() && (forall p :: 0 < p < |procs| ==> procs[p] == Empty())
    requires forall c :: 0 <= c < |cpus| ==> cpus[c] == Null
    ensures CpuOk(procs, cpus) && ParentOk(procs, 0) && ForkOk(procs) && WaitOk(procs) && PidOk(procs, 2, [], [])
            && PagesOk(procs, 3, [])
  {
    forall p, q | 0 <= p < q < |procs| ensures Owns(procs[p]) !! Owns(procs[q]) {
      assert procs[q] == Empty();
    }
    forall p | 0 <= p < |procs| ensures procs[p] == InitProc() || procs[p] == Empty() {
    }
  }

  /* Slot q sleeps in wait. */
  predicate InWaitOf(pr: Proc, q: nat) {
    pr.state == SLEEPING && pr.chan == ProcChan(q)
  }

  /* Process-table safety in every reachable state. */
  lemma Safety(nproc: nat, ncpu: nat, acts: seq<Action>)
    requires nproc > 0 && Runs(Init(nproc, ncpu), acts)
    ensures var s := Final(Init(nproc, ncpu), acts);
            && (forall p :: 0 <= p < |s.procs| ==> (s.procs[p].state == RUNNING <==> OnCpu(s.cpus, p)))
            && (forall c, d :: 0 <= c < d < |s.cpus| && s.cpus[c].Slot? ==> s.cpus[c] != s.cpus[d])
            && (forall p :: 0 <= p < |s.procs| && p != s.init && (Alive(s.procs[p]) || s.procs[p].state == ZOMBIE) ==>
                  s.procs[p].parent.Slot? && s.procs[p].parent.i < |s.procs| && Alive(s.procs[s.procs[p].parent.i]))
            && (forall p, q :: 0 <= p < |s.procs| && 0 <= q < |s.procs| && s.procs[p].parent == Slot(q) ==>
                  s.procs[q].state != ZOMBIE)
            && (forall p, q :: 0 <= p < |s.procs| && 0 <= q < |s.procs| && InWaitOf(s.procs[q], q) ==>
                  !IsZombieChild(s.procs[p], q))
  {
    hide PidOk;
    hide PagesOk;
    hide ForkOk;
    InitInv(nproc, ncpu);
    RunsKeep(Init(nproc, ncpu), acts);
  }

  /* Each exited process is a zombie until it is reaped, and it is reaped at most once; no
     stack and no page directory is freed twice, or while its process is still there. */
  lemma ReapedOnce(nproc: nat, ncpu: nat, acts: seq<Action>)
    requires nproc > 0 && Runs(Init(nproc, ncpu), acts)
    ensures var s := Final(Init(nproc, ncpu), acts);
            && Distinct(s.exited) && Distinct(s.reaped) && Distinct(s.freed)
            && (forall y: nat :: 0 < y < s.nextpage ==> (y in s.freed <==> !Owned(s.procs, y)))
            && (forall x :: x in s.reaped ==> x in s.exited)
            && (forall x :: x in s.exited && x !in s.reaped ==> ZombieWith(s.procs, x))
            && (forall p :: 0 <= p < |s.procs| && (Alive(s.procs[p]) || s.procs[p].state == ZOMBIE) ==>
                  && s.procs[p].pid !in s.reaped && s.procs[p].kstack != 0
                  && s.procs[p].kstack !in s.freed && s.procs[p].pgdir !in s.freed)
  {
    hide CpuOk;
    hide ParentOk;
    hide WaitOk;
    hide ForkOk;
    InitInv(nproc, ncpu);
    RunsKeep(Init(nproc, ncpu), acts);
    var s := Final(Init(nproc, ncpu), acts);
    forall p | 0 <= p < |s.procs| ensures OwnsOk(s.procs[p], s.nextpage, s.freed) {
    }
  }
}
