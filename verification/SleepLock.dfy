/**
Sleep locks (sleeplock.c) on top of sleep, wakeup and kill (proc.c) as a state machine in
which any number of processes and any number of sleep locks interleave at the level of
single spin-lock operations.  In every reachable state at most one process holds a sleep
lock, and nobody sleeps on a free one unless its waker is still on the way.
*/
module SleepLock {

  /* Who has a spin lock; the scheduler of some cpu may have ptable.lock. */
  datatype Owner = Nobody | Process(p: nat) | Scheduler

  datatype RunState = RUNNING | RUNNABLE | SLEEPING

  /* Where a process is: what it does next. */
  datatype Pc =
    | Idle
    // acquiresleep
    | WantSpin(l: nat)            // acquire(&lk->lk)
    | Testing(l: nat)             // while(lk->locked)
    | SleepLock(l: nat)           // sleep: acquire(&ptable.lock)
    | SleepUnlock(l: nat)         // sleep: release(lk)
    | GoSleep(l: nat)             // sleep: set chan and state, sched()
    | Slept(l: nat)               // switched out
    | Woke(l: nat)                // sleep: p->chan = 0
    | WokeUnlock(l: nat)          // sleep: release(&ptable.lock)
    | Reacquire(l: nat)           // sleep: acquire(lk)
    | Taking(l: nat)              // lk->locked = 1, lk->pid = pid
    | Taken(l: nat)               // release(&lk->lk)
    // releasesleep
    | RelSpin(l: nat)             // acquire(&lk->lk)
    | Clearing(l: nat)            // lk->locked = 0, lk->pid = 0
    | WakeLock(l: nat)            // wakeup: acquire(&ptable.lock)
    | Waking(l: nat, i: nat)      // wakeup1: table entry i
    | WakeUnlock(l: nat)          // wakeup: release(&ptable.lock)
    | RelUnlock(l: nat)           // release(&lk->lk)
    // kill
    | KillLock(q: nat)            // acquire(&ptable.lock)
    | Killing(q: nat)             // wake the victim if it sleeps
    | KillUnlock                  // release(&ptable.lock)

  /* chan is a lock number plus one, 0 for none; held are the sleep locks between the
     assignments locked = 1 and locked = 0. */
  datatype Proc = Proc(pc: Pc, state: RunState, chan: nat, held: set<nat>)

  datatype Lock = Lock(spin: Owner, locked: bool, pid: nat)

  datatype State = State(procs: seq<Proc>, table: Owner, locks: seq<Lock>)

  datatype Action =
    | Acquire(p: nat, l: nat)     // call acquiresleep
    | Release(p: nat, l: nat)     // call releasesleep
    | Kill(p: nat, q: nat)        // call kill
    | Run(p: nat)                 // the next step of p
    | SchedLock | SchedUnlock     // a cpu's scheduler takes and drops ptable.lock
    | SchedRun(p: nat)            // it switches to p

  function Pid(p: nat): nat {
    p + 1
  }

  function SetProc(s: State, p: nat, q: Proc): State
    requires p < |s.procs|
  {
    s.(procs := s.procs[p := q])
  }

  function Goto(s: State, p: nat, pc: Pc): State
    requires p < |s.procs|
  {
    SetProc(s, p, s.procs[p].(pc := pc))
  }

  function SetSpin(s: State, l: nat, o: Owner): State
    requires l < |s.locks|
  {
    s.(locks := s.locks[l := s.locks[l].(spin := o)])
  }

  /* The lock number in a program counter exists. */
  predicate PcOk(pc: Pc, nlocks: nat) {
    match pc
    case Idle => true
    case WantSpin(l) => l < nlocks case Testing(l) => l < nlocks case SleepLock(l) => l < nlocks
    case SleepUnlock(l) => l < nlocks case GoSleep(l) => l < nlocks case Slept(l) => l < nlocks
    case Woke(l) => l < nlocks case WokeUnlock(l) => l < nlocks case Reacquire(l) => l < nlocks
    case Taking(l) => l < nlocks case Taken(l) => l < nlocks case RelSpin(l) => l < nlocks
    case Clearing(l) => l < nlocks case WakeLock(l) => l < nlocks case Waking(l, i) => l < nlocks
    case WakeUnlock(l) => l < nlocks case RelUnlock(l) => l < nlocks
    case KillLock(q) => true case Killing(q) => true case KillUnlock => true
  }

  /* wakeup1 and kill: a sleeping process becomes runnable. */
  function Wake(pr: Proc): Proc {
    if pr.state == SLEEPING then pr.(state := RUNNABLE) else pr
  }

  /* Whether process p can take its next step: spin locks must be free to be acquired, and
     a process that is switched out takes none. */
  predicate CanRun(s: State, p: nat) {
    && p < |s.procs| && PcOk(s.procs[p].pc, |s.locks|)
    && match s.procs[p].pc
       case Idle => false
       case Slept(l) => false
       case WantSpin(l) => s.locks[l].spin == Nobody
       case Reacquire(l) => s.locks[l].spin == Nobody
       case RelSpin(l) => s.locks[l].spin == Nobody
       case SleepLock(l) => s.table == Nobody
       case WakeLock(l) => s.table == Nobody
       case KillLock(q) => s.table == Nobody
       case _ => true
  }

  function RunStep(s: State, p: nat): State
    requires CanRun(s, p)
  {
    var pr := s.procs[p];
    match pr.pc
    case Idle => s
    case Slept(l) => s
    case WantSpin(l) => SetSpin(Goto(s, p, Testing(l)), l, Process(p))
    case Testing(l) => Goto(s, p, if s.locks[l].locked then SleepLock(l) else Taking(l))
    case SleepLock(l) => Goto(s, p, SleepUnlock(l)).(table := Process(p))
    case SleepUnlock(l) => SetSpin(Goto(s, p, GoSleep(l)), l, Nobody)
    case GoSleep(l) => SetProc(s, p, pr.(pc := Slept(l), state := SLEEPING, chan := l + 1)).(table := Scheduler)
    case Woke(l) => SetProc(s, p, pr.(pc := WokeUnlock(l), chan := 0))
    case WokeUnlock(l) => Goto(s, p, Reacquire(l)).(table := Nobody)
    case Reacquire(l) => SetSpin(Goto(s, p, Testing(l)), l, Process(p))
    case Taking(l) =>
      SetProc(s, p,
              pr.(pc := Taken(l),
                  held := pr.held + {l})).(locks := s.locks[l := s.locks[l].(locked := true, pid := Pid(p))])
    case Taken(l) => SetSpin(Goto(s, p, Idle), l, Nobody)
    case RelSpin(l) => SetSpin(Goto(s, p, Clearing(l)), l, Process(p))
    case Clearing(l) =>
      SetProc(s, p,
              pr.(pc := WakeLock(l),
                  held := pr.held - {l})).(locks := s.locks[l := s.locks[l].(locked := false, pid := 0)])
    case WakeLock(l) => Goto(s, p, Waking(l, 0)).(table := Process(p))
    case Waking(l, i) =>
      if i >= |s.procs| then Goto(s, p, WakeUnlock(l))
      else
        var s1 := if s.procs[i].chan == l + 1 then SetProc(s, i, Wake(s.procs[i])) else s;
        Goto(s1, p, Waking(l, i + 1))
    case WakeUnlock(l) => Goto(s, p, RelUnlock(l)).(table := Nobody)
    case RelUnlock(l) => SetSpin(Goto(s, p, Idle), l, Nobody)
    case KillLock(q) => Goto(s, p, Killing(q)).(table := Process(p))
    case Killing(q) =>
      var s1 := if q < |s.procs| then SetProc(s, q, Wake(s.procs[q])) else s;
      Goto(s1, p, KillUnlock)
    case KillUnlock => Goto(s, p, Idle).(table := Nobody)
  }

  predicate Enabled(s: State, a: Action) {
    match a
    case Acquire(p, l) => p < |s.procs| && s.procs[p].pc == Idle && l < |s.locks|
    case Release(p, l) => p < |s.procs| && s.procs[p].pc == Idle && l in s.procs[p].held && l < |s.locks|
    case Kill(p, q) => p < |s.procs| && s.procs[p].pc == Idle
    case Run(p) => CanRun(s, p)
    case SchedLock => s.table == Nobody
    case SchedUnlock => s.table == Scheduler
    case SchedRun(p) => s.table == Scheduler && p < |s.procs| && s.procs[p].state == RUNNABLE && s.procs[p].pc.Slept?
  }

  function Apply(s: State, a: Action): State
    requires Enabled(s, a)
  {
    match a
    case Acquire(p, l) => Goto(s, p, WantSpin(l))
    case Release(p, l) => Goto(s, p, RelSpin(l))
    case Kill(p, q) => Goto(s, p, KillLock(q))
    case Run(p) => RunStep(s, p)
    case SchedLock => s.(table := Scheduler)
    case SchedUnlock => s.(table := Nobody)
    case SchedRun(p) =>
      SetProc(s, p, s.procs[p].(pc := Woke(s.procs[p].pc.l), state := RUNNING)).(table := Process(p))
  }

  function Init(nprocs: nat, nlocks: nat): State {
    State(seq(nprocs, i => Proc(Idle, RUNNING, 0, {})), Nobody, seq(nlocks, i => Lock(Nobody, false, 0)))
  }

  // ----- the invariant

  predicate HoldsTable(pc: Pc) {
    pc.SleepUnlock? || pc.GoSleep? || pc.Woke? || pc.WokeUnlock? || pc.Waking? || pc.WakeUnlock? || pc.Killing?
    || pc.KillUnlock?
  }

  predicate HoldsSpin(pc: Pc, l: nat) {
    match pc
    case Testing(k) => k == l case SleepLock(k) => k == l case SleepUnlock(k) => k == l
    case Taking(k) => k == l case Taken(k) => k == l case Clearing(k) => k == l case WakeLock(k) => k == l
    case Waking(k, i) => k == l case WakeUnlock(k) => k == l case RelUnlock(k) => k == l
    case _ => false
  }

  ghost predicate TableOk(procs: seq<Proc>, table: Owner) {
    && (table.Process? ==> table.p < |procs|)
    && forall p :: 0 <= p < |procs| ==> (HoldsTable(procs[p].pc) <==> table == Process(p))
  }

  ghost predicate SpinOk(procs: seq<Proc>, locks: seq<Lock>) {
    && (forall l :: 0 <= l < |locks| ==>
          locks[l].spin != Scheduler && (locks[l].spin.Process? ==> locks[l].spin.p < |procs|))
    && forall p, l :: 0 <= p < |procs| && 0 <= l < |locks| ==>
         (HoldsSpin(procs[p].pc, l) <==> locks[l].spin == Process(p))
  }

  /* A process switched out is asleep or runnable, and one asleep is on its channel. */
  ghost predicate RunOk(procs: seq<Proc>, nlocks: nat) {
    forall p :: 0 <= p < |procs| ==>
      && PcOk(procs[p].pc, nlocks)
      && (procs[p].pc.Slept? <==> procs[p].state != RUNNING)
      && (procs[p].pc.Slept? ==> procs[p].chan == procs[p].pc.l + 1)
  }

  /* What is known of the lock at each point of the code. */
  predicate Knows(pr: Proc, lk: Lock, l: nat) {
    match pr.pc
    case SleepLock(k) => k == l ==> lk.locked
    case SleepUnlock(k) => k == l ==> lk.locked
    case Taking(k) => k == l ==> !lk.locked
    case RelSpin(k) => k == l ==> l in pr.held
    case Clearing(k) => k == l ==> l in pr.held
    case WakeLock(k) => k == l ==> !lk.locked
    case Waking(k, i) => k == l ==> !lk.locked
    case _ => true
  }

  ghost predicate KnowsOk(procs: seq<Proc>, locks: seq<Lock>) {
    forall p, l :: 0 <= p < |procs| && 0 <= l < |locks| ==> Knows(procs[p], locks[l], l)
  }

  /* A lock is locked exactly by the one process that holds it. */
  ghost predicate HeldOk(procs: seq<Proc>, locks: seq<Lock>) {
    && (forall p, l {:trigger l in procs[p].held} :: 0 <= p < |procs| && l in procs[p].held ==>
          l < |locks| && locks[l].locked && locks[l].pid == Pid(p))
    && (forall l :: 0 <= l < |locks| ==> HolderOk(procs, locks[l], l))
  }

  predicate HolderOk(procs: seq<Proc>, lk: Lock, l: nat) {
    if lk.locked then 0 < lk.pid <= |procs| && l in procs[lk.pid - 1].held else lk.pid == 0
  }

  /* Asleep on l, or past the point of no return. */
  predicate Waits(pr: Proc, l: nat) {
    (pr.pc == Slept(l) && pr.state == SLEEPING) || pr.pc == GoSleep(l)
  }

  /* The process with the spin lock of l has released l and has yet to wake p. */
  predicate Pending(procs: seq<Proc>, spin: Owner, l: nat, p: nat) {
    && spin.Process? && spin.p < |procs|
    && (procs[spin.p].pc == WakeLock(l)
        || (procs[spin.p].pc.Waking? && procs[spin.p].pc.l == l && procs[spin.p].pc.i <= p))
  }

  ghost predicate NoLost(procs: seq<Proc>, locks: seq<Lock>) {
    forall p, l :: 0 <= p < |procs| && 0 <= l < |locks| && Waits(procs[p], l) && !locks[l].locked ==>
      Pending(procs, locks[l].spin, l, p)
  }

  ghost predicate Inv(s: State) {
    && TableOk(s.procs, s.table) && SpinOk(s.procs, s.locks) && RunOk(s.procs, |s.locks|)
    && KnowsOk(s.procs, s.locks) && HeldOk(s.procs, s.locks) && NoLost(s.procs, s.locks)
  }

  // ----- a step of a process, field by field

  predicate Names(pc: Pc, l: nat) {
    !pc.Idle? && !pc.KillLock? && !pc.Killing? && !pc.KillUnlock? && pc.l == l
  }

  function NextPc(pc: Pc, locked: bool, nprocs: nat): Pc {
    match pc
    case Idle => pc
    case WantSpin(l) => Testing(l)
    case Testing(l) => if locked then SleepLock(l) else Taking(l)
    case SleepLock(l) => SleepUnlock(l)
    case SleepUnlock(l) => GoSleep(l)
    case GoSleep(l) => Slept(l)
    case Slept(l) => pc
    case Woke(l) => WokeUnlock(l)
    case WokeUnlock(l) => Reacquire(l)
    case Reacquire(l) => Testing(l)
    case Taking(l) => Taken(l)
    case Taken(l) => Idle
    case RelSpin(l) => Clearing(l)
    case Clearing(l) => WakeLock(l)
    case WakeLock(l) => Waking(l, 0)
    case Waking(l, i) => if i >= nprocs then WakeUnlock(l) else Waking(l, i + 1)
    case WakeUnlock(l) => RelUnlock(l)
    case RelUnlock(l) => Idle
    case KillLock(q) => Killing(q)
    case Killing(q) => KillUnlock
    case KillUnlock => Idle
  }

  function NextTable(pc: Pc, p: nat, table: Owner): Owner {
    if pc.SleepLock? || pc.WakeLock? || pc.KillLock? then Process(p)
    else if pc.WokeUnlock? || pc.WakeUnlock? || pc.KillUnlock? then Nobody
    else if pc.GoSleep? then Scheduler
    else table
  }

  function NextSpin(pc: Pc, p: nat, spin: Owner): Owner {
    if pc.WantSpin? || pc.Reacquire? || pc.RelSpin? then Process(p)
    else if pc.SleepUnlock? || pc.Taken? || pc.RelUnlock? then Nobody
    else spin
  }

  function NextLocked(pc: Pc, locked: bool): bool {
    if pc.Taking? then true else if pc.Clearing? then false else locked
  }

  function NextLock(pc: Pc, p: nat, lk: Lock): Lock {
    Lock(NextSpin(pc, p, lk.spin), NextLocked(pc, lk.locked),
         if pc.Taking? then Pid(p) else if pc.Clearing? then 0 else lk.pid)
  }

  predicate Wakes(pc: Pc, q: nat, pr: Proc) {
    (pc.Waking? && pc.i == q && pr.chan == pc.l + 1) || (pc.Killing? && pc.q == q)
  }

  function Locked(s: State, pc: Pc): bool {
    pc.Testing? && pc.l < |s.locks| && s.locks[pc.l].locked
  }

  function NextHeld(pc: Pc, held: set<nat>): set<nat> {
    if pc.Taking? then held + {pc.l} else if pc.Clearing? then held - {pc.l} else held
  }

  function NextProc(s: State, p: nat): Proc
    requires p < |s.procs|
  {
    var pr := s.procs[p];
    Proc(NextPc(pr.pc, Locked(s, pr.pc), |s.procs|),
         if pr.pc.GoSleep? then SLEEPING else pr.state,
         if pr.pc.GoSleep? then pr.pc.l + 1 else if pr.pc.Woke? then 0 else pr.chan,
         NextHeld(pr.pc, pr.held))
  }

  function ProcAfter(s: State, p: nat, q: nat): Proc
    requires p < |s.procs| && q < |s.procs|
  {
    if q == p then NextProc(s, p)
    else if Wakes(s.procs[p].pc, q, s.procs[q]) then Wake(s.procs[q])
    else s.procs[q]
  }

  function LockAfter(s: State, p: nat, l: nat): Lock
    requires p < |s.procs| && l < |s.locks|
  {
    if Names(s.procs[p].pc, l) then NextLock(s.procs[p].pc, p, s.locks[l]) else s.locks[l]
  }

  lemma FieldByField(s: State, p: nat)
    requires CanRun(s, p) && s.procs[p].state == RUNNING
    ensures var s' := RunStep(s, p);
            && |s'.procs| == |s.procs| && |s'.locks| == |s.locks| && s'.table == NextTable(s.procs[p].pc, p, s.table)
            && (forall q :: 0 <= q < |s.procs| ==> s'.procs[q] == ProcAfter(s, p, q))
            && (forall l :: 0 <= l < |s.locks| ==> s'.locks[l] == LockAfter(s, p, l))
  {
  }

  // ----- every step of a process keeps the invariant

  lemma TableAt(s: State, p: nat, q: nat)
    requires CanRun(s, p) && TableOk(s.procs, s.table) && q < |s.procs|
    ensures HoldsTable(ProcAfter(s, p, q).pc) <==> NextTable(s.procs[p].pc, p, s.table) == Process(q)
  {
    assert HoldsTable(s.procs[q].pc) <==> s.table == Process(q);
    assert HoldsTable(s.procs[p].pc) <==> s.table == Process(p);
  }

  lemma SpinAt(s: State, p: nat, q: nat, l: nat)
    requires CanRun(s, p) && SpinOk(s.procs, s.locks) && q < |s.procs| && l < |s.locks|
    ensures HoldsSpin(ProcAfter(s, p, q).pc, l) <==> LockAfter(s, p, l).spin == Process(q)
  {
    assert HoldsSpin(s.procs[q].pc, l) <==> s.locks[l].spin == Process(q);
    assert HoldsSpin(s.procs[p].pc, l) <==> s.locks[l].spin == Process(p);
  }

  lemma KnowsAt(s: State, p: nat, q: nat, l: nat)
    requires CanRun(s, p) && SpinOk(s.procs, s.locks) && KnowsOk(s.procs, s.locks) && HeldOk(s.procs, s.locks)
    requires q < |s.procs| && l < |s.locks|
    ensures Knows(ProcAfter(s, p, q), LockAfter(s, p, l), l)
  {
    assert Knows(s.procs[q], s.locks[l], l);
    assert HoldsSpin(s.procs[q].pc, l) <==> s.locks[l].spin == Process(q);
    assert HoldsSpin(s.procs[p].pc, l) <==> s.locks[l].spin == Process(p);
  }

  lemma HeldAt(s: State, p: nat, q: nat, l: nat)
    requires CanRun(s, p) && KnowsOk(s.procs, s.locks) && HeldOk(s.procs, s.locks)
    requires q < |s.procs| && l in ProcAfter(s, p, q).held
    ensures l < |s.locks| && LockAfter(s, p, l).locked && LockAfter(s, p, l).pid == Pid(q)
  {
    var pc := s.procs[p].pc;
    assert pc.Taking? || pc.Clearing? ==> Knows(s.procs[p], s.locks[pc.l], pc.l);
    assert (q == p && pc.Taking? && l == pc.l) || l in s.procs[q].held;
  }

  lemma HolderAt(s: State, p: nat, l: nat)
    requires CanRun(s, p) && KnowsOk(s.procs, s.locks) && HeldOk(s.procs, s.locks) && l < |s.locks|
    ensures var lk := LockAfter(s, p, l);
            if lk.locked then 0 < lk.pid <= |s.procs| && l in ProcAfter(s, p, lk.pid - 1).held else lk.pid == 0
  {
    assert HolderOk(s.procs, s.locks[l], l);
    assert Knows(s.procs[p], s.locks[l], l);
  }

  lemma NoLostAt(s: State, p: nat, q: nat, l: nat)
    requires CanRun(s, p) && Inv(s) && q < |s.procs| && l < |s.locks|
    requires Waits(ProcAfter(s, p, q), l) && !LockAfter(s, p, l).locked
    ensures var spin := LockAfter(s, p, l).spin;
            && spin.Process? && spin.p < |s.procs|
            && var pc := ProcAfter(s, p, spin.p).pc; pc == WakeLock(l) || (pc.Waking? && pc.l == l && pc.i <= q)
  {
    assert Knows(s.procs[p], s.locks[l], l);
    assert HoldsSpin(s.procs[p].pc, l) <==> s.locks[l].spin == Process(p);
    assert HoldsTable(s.procs[p].pc) <==> s.table == Process(p);
    assert HoldsTable(s.procs[q].pc) <==> s.table == Process(q);
    assert Waits(s.procs[q], l) && !s.locks[l].locked ==> Pending(s.procs, s.locks[l].spin, l, q);
  }

  lemma RunAt(s: State, p: nat, q: nat)
    requires CanRun(s, p) && RunOk(s.procs, |s.locks|) && q < |s.procs|
    ensures s.procs[p].state == RUNNING
    ensures var pr := ProcAfter(s, p, q);
            && PcOk(pr.pc, |s.locks|) && (pr.pc.Slept? <==> pr.state != RUNNING)
               && (pr.pc.Slept? ==> pr.chan == pr.pc.l + 1)
  {
  }

  lemma OwnersAt(s: State, p: nat, l: nat)
    requires CanRun(s, p) && SpinOk(s.procs, s.locks) && TableOk(s.procs, s.table)
    ensures var table := NextTable(s.procs[p].pc, p, s.table); table.Process? ==> table.p < |s.procs|
    ensures l < |s.locks| ==>
              var spin := LockAfter(s, p, l).spin; spin != Scheduler && (spin.Process? ==> spin.p < |s.procs|)
  {
  }

  lemma RunKeeps(s: State, p: nat)
    requires Inv(s) && CanRun(s, p)
    ensures Inv(RunStep(s, p))
  {
    hide RunStep;
    hide Knows;
    hide HoldsSpin;
    hide HoldsTable;
    hide Waits;
    hide Wakes;
    hide NextLock;
    hide NextPc;
    var s' := RunStep(s, p);
    RunAt(s, p, p);
    OwnersAt(s, p, |s.locks|);
    FieldByField(s, p);
    forall q | 0 <= q < |s.procs|
      ensures var pr := s'.procs[q];
              && PcOk(pr.pc, |s.locks|) && (pr.pc.Slept? <==> pr.state != RUNNING)
                 && (pr.pc.Slept? ==> pr.chan == pr.pc.l + 1)
    {
      RunAt(s, p, q);
    }
    forall l | 0 <= l < |s.locks|
      ensures var spin := s'.locks[l].spin; spin != Scheduler && (spin.Process? ==> spin.p < |s.procs|)
    {
      OwnersAt(s, p, l);
    }
    forall q | 0 <= q < |s.procs| ensures HoldsTable(s'.procs[q].pc) <==> s'.table == Process(q) { TableAt(s, p, q); }
    forall q, l | 0 <= q < |s.procs| && 0 <= l < |s.locks|
      ensures HoldsSpin(s'.procs[q].pc, l) <==> s'.locks[l].spin == Process(q)
    {
      SpinAt(s, p, q, l);
    }
    forall q, l | 0 <= q < |s.procs| && 0 <= l < |s.locks|
      ensures Knows(s'.procs[q], s'.locks[l], l)
    {
      KnowsAt(s, p, q, l);
    }
    forall q, l | 0 <= q < |s.procs| && l in s'.procs[q].held
      ensures l < |s.locks| && s'.locks[l].locked && s'.locks[l].pid == Pid(q)
    {
      HeldAt(s, p, q, l);
    }
    forall l | 0 <= l < |s.locks| ensures HolderOk(s'.procs, s'.locks[l], l) { HolderAt(s, p, l); }
    forall q, l | 0 <= q < |s.procs| && 0 <= l < |s.locks| && Waits(s'.procs[q], l) && !s'.locks[l].locked
      ensures Pending(s'.procs, s'.locks[l].spin, l, q)
    {
      NoLostAt(s, p, q, l);
    }
  }

  // ----- every action keeps the invariant

  /* A process outside every spin lock moves, and perhaps takes ptable.lock from the scheduler. */
  lemma MoveKeeps(s: State, p: nat, pr: Proc, table: Owner)
    requires Inv(s) && p < |s.procs|
    requires pr.held == s.procs[p].held && PcOk(pr.pc, |s.locks|) && pr.state == RUNNING && !pr.pc.Slept?
    requires forall l :: 0 <= l < |s.locks| ==>
               !HoldsSpin(pr.pc, l) && !HoldsSpin(s.procs[p].pc, l) && Knows(pr, s.locks[l], l) && !Waits(pr, l)
    requires table == s.table || (s.table == Scheduler && table == Process(p))
    requires !HoldsTable(s.procs[p].pc) && (HoldsTable(pr.pc) <==> table == Process(p))
    ensures Inv(State(s.procs[p := pr], table, s.locks))
  {
    var procs := s.procs[p := pr];
    hide Knows;
    hide Waits;
    hide HoldsSpin;
    hide HoldsTable;
    assert HeldOk(procs, s.locks) by {
      forall l | 0 <= l < |s.locks| ensures HolderOk(procs, s.locks[l], l) { assert HolderOk(s.procs, s.locks[l], l); }
    }
    forall q, l | 0 <= q < |procs| && 0 <= l < |s.locks| && Waits(procs[q], l) && !s.locks[l].locked
      ensures Pending(procs, s.locks[l].spin, l, q)
    {
      assert Pending(s.procs, s.locks[l].spin, l, q);
      var r := s.locks[l].spin.p;
      assert HoldsSpin(s.procs[r].pc, l);
    }
  }

  lemma CallKeeps(s: State, a: Action)
    requires Inv(s) && Enabled(s, a) && (a.Acquire? || a.Release? || a.Kill?)
    ensures Inv(Apply(s, a))
  {
    hide Inv;
    var pc := if a.Acquire? then WantSpin(a.l) else if a.Release? then RelSpin(a.l) else KillLock(a.q);
    IdleRuns(s, a.p);
    MoveKeeps(s, a.p, s.procs[a.p].(pc := pc), s.table);
  }

  lemma IdleRuns(s: State, p: nat)
    requires Inv(s) && p < |s.procs|
    ensures s.procs[p].pc == Idle ==> s.procs[p].state == RUNNING && s.table != Process(p)
    ensures s.procs[p].pc.Slept? ==> s.procs[p].pc.l < |s.locks|
  {
  }

  lemma SchedKeeps(s: State, a: Action)
    requires Inv(s) && Enabled(s, a) && (a.SchedLock? || a.SchedUnlock? || a.SchedRun?)
    ensures Inv(Apply(s, a))
  {
    hide SpinOk;
    hide KnowsOk;
    hide HeldOk;
    hide NoLost;
    hide RunOk;
    if a.SchedRun? {
      IdleRuns(s, a.p);
      MoveKeeps(s, a.p, s.procs[a.p].(pc := Woke(s.procs[a.p].pc.l), state := RUNNING), Process(a.p));
    }
  }

  lemma StepKeeps(s: State, a: Action)
    requires Inv(s) && Enabled(s, a)
    ensures Inv(Apply(s, a))
  {
    hide Inv;
    if a.Run? {
      RunKeeps(s, a.p);
    } else if a.Acquire? || a.Release? || a.Kill? {
      CallKeeps(s, a);
    } else {
      SchedKeeps(s, a);
    }
  }

  // ----- whole runs

  predicate Runs(s: State, acts: seq<Action>)
    decreases |acts|
  {
    acts == [] || (Enabled(s, acts[0]) && Runs(Apply(s, acts[0]), acts[1..]))
  }

  function Final(s: State, acts: seq<Action>): State
    requires Runs(s, acts)
    decreases |acts|
  {
    if acts == [] then s else Final(Apply(s, acts[0]), acts[1..])
  }

  lemma {:induction false} RunsKeep(s: State, acts: seq<Action>)
    requires Inv(s) && Runs(s, acts)
    ensures Inv(Final(s, acts))
    decreases |acts|
  {
    hide Inv;
    hide Enabled;
    hide Apply;
    if acts != [] {
      StepKeeps(s, acts[0]);
      RunsKeep(Apply(s, acts[0]), acts[1..]);
    }
  }

  lemma InitInv(nprocs: nat, nlocks: nat)
    ensures Inv(Init(nprocs, nlocks))
  {
  }

  /* At most one process holds a sleep lock, in every reachable state, and lk->pid is its
     pid. */
  lemma MutualExclusion(nprocs: nat, nlocks: nat, acts: seq<Action>, p: nat, q: nat, l: nat)
    requires Runs(Init(nprocs, nlocks), acts)
    requires var s := Final(Init(nprocs, nlocks), acts);
             p < |s.procs| && q < |s.procs| && l in s.procs[p].held && l in s.procs[q].held
    ensures p == q
  {
    InitInv(nprocs, nlocks);
    RunsKeep(Init(nprocs, nlocks), acts);
  }

  /* No lost wakeup: a process asleep on a free lock has a waker on the way, one that holds
     the spin lock, has cleared locked, and has not come to the sleeper in its scan yet. */
  lemma NoLostWakeup(nprocs: nat, nlocks: nat, acts: seq<Action>, p: nat, l: nat)
    requires Runs(Init(nprocs, nlocks), acts)
    requires var s := Final(Init(nprocs, nlocks), acts);
             p < |s.procs| && l < |s.locks| && s.procs[p].pc == Slept(l) && s.procs[p].state == SLEEPING
             && !s.locks[l].locked
    ensures var s := Final(Init(nprocs, nlocks), acts);
            exists r :: 0 <= r < |s.procs| && r != p && s.locks[l].spin == Process(r) &&
                        (s.procs[r].pc == WakeLock(l)
                         || (s.procs[r].pc.Waking? && s.procs[r].pc.l == l && s.procs[r].pc.i <= p))
  {
    InitInv(nprocs, nlocks);
    RunsKeep(Init(nprocs, nlocks), acts);
    var s := Final(Init(nprocs, nlocks), acts);
    assert Waits(s.procs[p], l);
  }

  /* The waker is not stuck either: it can take a step, or whoever has ptable.lock can. */
  lemma WakerNotStuck(nprocs: nat, nlocks: nat, acts: seq<Action>, p: nat, l: nat)
    requires Runs(Init(nprocs, nlocks), acts)
    requires var s := Final(Init(nprocs, nlocks), acts);
             p < |s.procs| && l < |s.locks| && s.procs[p].pc == Slept(l) && s.procs[p].state == SLEEPING
             && !s.locks[l].locked
    ensures var s := Final(Init(nprocs, nlocks), acts);
            && s.locks[l].spin.Process?
            && (Enabled(s, Run(s.locks[l].spin.p)) || Enabled(s, SchedUnlock)
                || (s.table.Process? && Enabled(s, Run(s.table.p))))
  {
    InitInv(nprocs, nlocks);
    RunsKeep(Init(nprocs, nlocks), acts);
    var s := Final(Init(nprocs, nlocks), acts);
    assert Waits(s.procs[p], l);
    assert Pending(s.procs, s.locks[l].spin, l, p);
    assert s.table.Process? ==> HoldsTable(s.procs[s.table.p].pc) && PcOk(s.procs[s.table.p].pc, |s.locks|);
  }

  /* What holdingsleep computes under the spin lock is whether the caller holds the lock. */
  lemma HoldingsleepExact(nprocs: nat, nlocks: nat, acts: seq<Action>, p: nat, l: nat)
    requires Runs(Init(nprocs, nlocks), acts)
    requires var s := Final(Init(nprocs, nlocks), acts); p < |s.procs| && l < |s.locks|
    ensures var s := Final(Init(nprocs, nlocks), acts);
            (s.locks[l].locked && s.locks[l].pid == Pid(p)) <==> l in s.procs[p].held
  {
    InitInv(nprocs, nlocks);
    RunsKeep(Init(nprocs, nlocks), acts);
    var s := Final(Init(nprocs, nlocks), acts);
    assert HolderOk(s.procs, s.locks[l], l);
  }

  // ----- what the calls do

  /* Of the calls of acquiresleep and releasesleep that p made on l, the last was one of
     acquiresleep. */
  predicate Wants(acts: seq<Action>, p: nat, l: nat) {
    if acts == [] then false
    else
      var a := acts[|acts| - 1];
      if a == Acquire(p, l) then true
      else if a == Release(p, l) then false
      else Wants(acts[..|acts| - 1], p, l)
  }

  /* p is inside acquiresleep(l), and the lock is not yet its own. */
  predicate Acquiring(pc: Pc, l: nat) {
    match pc
    case WantSpin(k) => k == l case Testing(k) => k == l case SleepLock(k) => k == l
    case SleepUnlock(k) => k == l case GoSleep(k) => k == l case Slept(k) => k == l
    case Woke(k) => k == l case WokeUnlock(k) => k == l case Reacquire(k) => k == l
    case Taking(k) => k == l
    case _ => false
  }

  /* p is inside releasesleep(l), and the lock is still its own. */
  predicate Releasing(pc: Pc, l: nat) {
    (pc.RelSpin? || pc.Clearing?) && pc.l == l
  }

  ghost predicate CallsOk(procs: seq<Proc>, nlocks: nat, acts: seq<Action>) {
    forall p, l :: 0 <= p < |procs| && 0 <= l < nlocks ==> CallOk(procs[p], l, Wants(acts, p, l))
  }

  predicate CallOk(pr: Proc, l: nat, wants: bool) {
    if Acquiring(pr.pc, l) then wants
    else if Releasing(pr.pc, l) then !wants && l in pr.held
    else l in pr.held <==> wants
  }

  lemma CallStep(s: State, acts: seq<Action>, a: Action)
    requires Inv(s) && Enabled(s, a) && CallsOk(s.procs, |s.locks|, acts)
    ensures var s' := Apply(s, a);
            && |s'.procs| == |s.procs| && |s'.locks| == |s.locks| && CallsOk(s'.procs, |s'.locks|, acts + [a])
  {
    var s' := Apply(s, a);
    assert (acts + [a])[..|acts|] == acts;
    forall p, l | 0 <= p < |s.procs| && 0 <= l < |s.locks|
      ensures |s'.procs| == |s.procs| && CallOk(s'.procs[p], l, Wants(acts + [a], p, l))
    {
      assert CallOk(s.procs[p], l, Wants(acts, p, l));
      if a.Run? {
        CallRun(s, a.p, p, l, Wants(acts, p, l));
      }
    }
  }

  lemma CallRun(s: State, p: nat, q: nat, l: nat, wants: bool)
    requires Inv(s) && CanRun(s, p) && q < |s.procs| && l < |s.locks| && CallOk(s.procs[q], l, wants)
    ensures var s' := RunStep(s, p);
            && |s'.procs| == |s.procs| && |s'.locks| == |s.locks| && CallOk(s'.procs[q], l, wants)
  {
    RunAt(s, p, p);
    hide RunStep;
    FieldByField(s, p);
  }

  lemma {:induction false} RunsLast(s: State, acts: seq<Action>)
    requires Runs(s, acts) && acts != []
    ensures var n := |acts| - 1;
            Runs(s, acts[..n]) && Enabled(Final(s, acts[..n]), acts[n])
            && Final(s, acts) == Apply(Final(s, acts[..n]), acts[n])
    decreases |acts|
  {
    hide Enabled;
    hide Apply;
    if |acts| > 1 {
      RunsLast(Apply(s, acts[0]), acts[1..]);
      assert acts[1..][..|acts| - 2] == acts[..|acts| - 1][1..];
    }
  }

  lemma {:induction false} RunsCalls(nprocs: nat, nlocks: nat, acts: seq<Action>)
    requires Runs(Init(nprocs, nlocks), acts)
    ensures var s := Final(Init(nprocs, nlocks), acts);
            && Inv(s) && |s.procs| == nprocs && |s.locks| == nlocks && CallsOk(s.procs, nlocks, acts)
    decreases |acts|
  {
    InitInv(nprocs, nlocks);
    RunsKeep(Init(nprocs, nlocks), acts);
    if acts != [] {
      hide Inv;
      hide CallsOk;
      hide Enabled;
      hide Apply;
      var n := |acts| - 1;
      RunsLast(Init(nprocs, nlocks), acts);
      RunsCalls(nprocs, nlocks, acts[..n]);
      CallStep(Final(Init(nprocs, nlocks), acts[..n]), acts[..n], acts[n]);
      assert acts[..n] + [acts[n]] == acts;
    }
  }

  /* When the call has returned: a process holds exactly the locks that it acquired and did
     not release since, and the lock is locked with its pid. */
  lemma AcquiredExact(nprocs: nat, nlocks: nat, acts: seq<Action>, p: nat, l: nat)
    requires Runs(Init(nprocs, nlocks), acts) && p < nprocs && l < nlocks
    ensures var s := Final(Init(nprocs, nlocks), acts);
            && |s.procs| == nprocs && |s.locks| == nlocks
            && (s.procs[p].pc == Idle ==>
                  && (l in s.procs[p].held <==> Wants(acts, p, l))
                  && (s.locks[l].locked && s.locks[l].pid == Pid(p) <==> Wants(acts, p, l)))
  {
    hide Inv;
    RunsCalls(nprocs, nlocks, acts);
    HoldingsleepExact(nprocs, nlocks, acts, p, l);
    assert CallOk(Final(Init(nprocs, nlocks), acts).procs[p], l, Wants(acts, p, l));
  }

  /* After two calls of acquiresleep on one lock by two processes, with no releasesleep of
     either after its own, at least one of them has not returned. */
  lemma NotBothReturned(nprocs: nat, nlocks: nat, acts: seq<Action>, p: nat, q: nat, l: nat, i: nat, j: nat)
    requires Runs(Init(nprocs, nlocks), acts) && p < nprocs && q < nprocs && p != q && l < nlocks
    requires i < |acts| && acts[i] == Acquire(p, l) && forall k :: i < k < |acts| ==> acts[k] != Release(p, l)
    requires j < |acts| && acts[j] == Acquire(q, l) && forall k :: j < k < |acts| ==> acts[k] != Release(q, l)
    ensures var s := Final(Init(nprocs, nlocks), acts);
            |s.procs| == nprocs && (s.procs[p].pc != Idle || s.procs[q].pc != Idle)
  {
    hide Inv;
    RunsCalls(nprocs, nlocks, acts);
    StillWants(acts, p, l, i);
    StillWants(acts, q, l, j);
    var s := Final(Init(nprocs, nlocks), acts);
    AcquiredExact(nprocs, nlocks, acts, p, l);
    AcquiredExact(nprocs, nlocks, acts, q, l);
  }

  lemma Then(s: State, a: Action, acts: seq<Action>)
    requires Enabled(s, a) && Runs(Apply(s, a), acts)
    ensures Runs(s, [a] + acts) && Final(s, [a] + acts) == Final(Apply(s, a), acts)
  {
    assert ([a] + acts)[1..] == acts;
  }

  /* And the call does return: on a lock that is free, with nobody in its way, four steps
     after it was made. */
  lemma FreeLockTaken(s: State, p: nat, l: nat)
    requires p < |s.procs| && l < |s.locks| && s.procs[p].pc == Idle
    requires s.locks[l].spin == Nobody && !s.locks[l].locked
    ensures var acts := [Acquire(p, l), Run(p), Run(p), Run(p), Run(p)];
            && Runs(s, acts)
            && Final(s, acts) == s.(procs := s.procs[p := s.procs[p].(held := s.procs[p].held + {l})],
                                    locks := s.locks[l := Lock(Nobody, true, Pid(p))])
  {
    var s1 := Apply(s, Acquire(p, l));
    var s2 := Apply(s1, Run(p));
    var s3 := Apply(s2, Run(p));
    var s4 := Apply(s3, Run(p));
    var s5 := Apply(s4, Run(p));
    assert s5 == s.(procs := s.procs[p := s.procs[p].(held := s.procs[p].held + {l})],
                    locks := s.locks[l := Lock(Nobody, true, Pid(p))]);
    hide Apply;
    hide Enabled;
    Then(s4, Run(p), []);
    Then(s3, Run(p), [Run(p)]);
    Then(s2, Run(p), [Run(p), Run(p)]);
    Then(s1, Run(p), [Run(p), Run(p), Run(p)]);
    Then(s, Acquire(p, l), [Run(p), Run(p), Run(p), Run(p)]);
  }

  lemma {:induction false} StillWants(acts: seq<Action>, p: nat, l: nat, i: nat)
    requires i < |acts| && acts[i] == Acquire(p, l) && forall k :: i < k < |acts| ==> acts[k] != Release(p, l)
    ensures Wants(acts, p, l)
    decreases |acts|
  {
    var n := |acts| - 1;
    if i < n {
      StillWants(acts[..n], p, l, i);
    }
  }

  /* What a step does to the other processes: at most, one asleep becomes runnable, because
     the step wakes its channel or kills it. */
  lemma OthersLeft(s: State, p: nat, q: nat)
    requires Inv(s) && CanRun(s, p) && q < |s.procs| && q != p
    ensures var s', pc := RunStep(s, p), s.procs[p].pc;
            && |s'.procs| == |s.procs|
            && (s'.procs[q] == s.procs[q]
                || (s.procs[q].state == SLEEPING && s'.procs[q] == s.procs[q].(state := RUNNABLE)
                    && ((pc.Waking? && s.procs[q].chan == pc.l + 1) || pc == Killing(q))))
            && (pc == Killing(q) ==> s'.procs[q].state != SLEEPING)
  {
    RunAt(s, p, p);
    hide RunStep;
    FieldByField(s, p);
  }
}
