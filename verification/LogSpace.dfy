/**
How large the log on disk must be.  log_write panics when lh.n reaches LOGSIZE or
log.size - 1, but it reads lh.n before it takes the lock; mkfs gives the log exactly
LOGSIZE blocks.  For operations that keep within their budget:

- the panic is never met on a new block if and only if log.size exceeds LOGSIZE;
- the list stays within the log on disk, and crashes stay atomic, if and only if log.size
  exceeds LOGSIZE or no two operations can be in log_write at once.  Otherwise two of them
  pass the test together, and the next commit overwrites the block after the log.
*/
module LogSpace {
  import opened Wrappers
  import opened WriteAheadLog

  /* A state that operations within their budgets can reach from power-on. */
  ghost predicate Reaches(cfg: Config, d: seq<Block>, steps: seq<Step>, s: State) {
    && DiskOk(cfg, d)
    && Exec(cfg, Boot(cfg, d), steps) == Some(s)
    && BudgetedRun(cfg, Boot(cfg, d), steps)
  }

  /* Some reachable state in which log_write refuses a new block from an operation that
     is within its budget. */
  ghost predicate Refused(cfg: Config, d: seq<Block>, steps: seq<Step>, s: State, p: nat, b: int) {
    && Reaches(cfg, d, steps, s)
    && s.phase == Running && Idle(s.ops, p)
    && cfg.Home(b) && b !in s.lh && |s.ops[p].blocks + {b}| <= cfg.maxop
    && cfg.Full(|s.lh|)
  }

  /* The i-th home block. */
  function HomeBlock(cfg: Config, i: nat): (b: nat)
    ensures i < cfg.nblocks - cfg.size && cfg.Valid() ==> cfg.Home(b)
  {
    if i < cfg.start then i else i + cfg.size
  }

  function Zero(): Block {
    seq(WORDS, i => 0)
  }

  function One(): Block {
    seq(WORDS, i => 1)
  }

  function EmptyDisk(cfg: Config): (d: seq<Block>)
    ensures |d| == cfg.nblocks && (cfg.Valid() ==> DiskOk(cfg, d))
  {
    seq(cfg.nblocks, i => Zero())
  }

  function HomeBlocks(cfg: Config, k: nat): (r: seq<int>)
    ensures |r| == k && forall i :: 0 <= i < k ==> r[i] == HomeBlock(cfg, i)
  {
    seq(k, i requires 0 <= i => HomeBlock(cfg, i))
  }

  /* Of q operations that take turns, the one that logs the k-th block. */
  function Turn(q: nat, k: nat): (p: nat)
    requires q > 0
    ensures p < q
  {
    if k == 0 || Turn(q, k - 1) + 1 == q then 0 else Turn(q, k - 1) + 1
  }

  /* How many blocks it has logged before. */
  function Lap(q: nat, k: nat): nat
    requires q > 0
  {
    if k == 0 then 0 else if Turn(q, k) == 0 then Lap(q, k - 1) + 1 else Lap(q, k - 1)
  }

  lemma {:induction false} TurnAndLap(q: nat, k: nat)
    requires q > 0
    ensures k == Turn(q, k) + Lap(q, k) * q
  {
    if k > 0 {
      TurnAndLap(q, k - 1);
      assert (Lap(q, k - 1) + 1) * q == Lap(q, k - 1) * q + q;
    }
  }

  lemma LapBound(q: nat, k: nat, m: nat)
    requires q > 0 && k < q * m
    ensures Lap(q, k) < m
  {
    TurnAndLap(q, k);
    if Lap(q, k) >= m {
      MulLe(m, Lap(q, k), q);
    }
  }

  /* Of q operations that take turns, the first n blocks of operation p. */
  function Share(cfg: Config, q: nat, p: nat, n: nat): (r: set<int>)
    ensures |r| <= n
    ensures forall j: nat :: j < n ==> HomeBlock(cfg, p + j * q) in r
  {
    if n == 0 then {} else
      var r := Share(cfg, q, p, n - 1);
      CardAdd(r, HomeBlock(cfg, p + (n - 1) * q));
      r + {HomeBlock(cfg, p + (n - 1) * q)}
  }

  lemma ShareHas(cfg: Config, q: nat, p: nat, n: nat, j: nat)
    requires j < n
    ensures HomeBlock(cfg, p + j * q) in Share(cfg, q, p, n)
  {
  }

  lemma ShareGains(cfg: Config, q: nat, p: nat, j: nat, blocks: set<int>, b: int)
    requires j < cfg.maxop && blocks <= Share(cfg, q, p, cfg.maxop) && b == HomeBlock(cfg, p + j * q)
    ensures b in Share(cfg, q, p, cfg.maxop) && |blocks + {b}| <= cfg.maxop
  {
    ShareHas(cfg, q, p, cfg.maxop, j);
    hide Share;
    hide HomeBlock;
    SubsetCard(blocks + {b}, Share(cfg, q, p, cfg.maxop));
  }

  lemma SubsetCard(a: set<int>, b: set<int>)
    requires a <= b
    ensures |a| <= |b|
  {
    assert b == a + (b - a);
  }

  /* LOGSIZE is a multiple of MAXOPBLOCKS, as in param.h. */
  ghost predicate Room(cfg: Config, q: nat) {
    cfg.Valid() && 0 < cfg.maxop && 0 < q && cfg.logsize == q * cfg.maxop && cfg.size + cfg.logsize <= cfg.nblocks
  }

  // ----- building runs

  lemma Extend(cfg: Config, d: seq<Block>, steps: seq<Step>, s: State, step: Step)
    requires Reaches(cfg, d, steps, s) && Shape(cfg, s) && Enabled(cfg, s, step) && WithinBudget(cfg, s, step)
    ensures Reaches(cfg, d, steps + [step], Apply(cfg, s, step)) && Shape(cfg, Apply(cfg, s, step))
  {
    ShapeKeeps(cfg, s, step);
    hide Shape;
    hide Boot;
    assert (steps + [step])[..|steps|] == steps;
  }

  /* Nothing has been made durable yet. */
  ghost predicate Fresh(cfg: Config, s: State) {
    Shape(cfg, s) && s.durable == 0 && HeaderOf(s.disk[cfg.start]) == []
  }

  /* The state after m operations have begun. */
  ghost predicate Begun(cfg: Config, s: State, m: nat) {
    && Fresh(cfg, s) && s.phase == Running && s.lh == [] && s.outstanding == m == |s.ops|
    && (forall p :: 0 <= p < m ==> s.ops[p] == Op(Active, {}, None))
  }

  lemma Start(cfg: Config) returns (steps: seq<Step>, s: State)
    requires cfg.Valid()
    ensures Reaches(cfg, EmptyDisk(cfg), steps, s) && Begun(cfg, s, 0)
  {
    var d := EmptyDisk(cfg);
    var s0 := Boot(cfg, d);
    BootShape(cfg, d);
    Extend(cfg, d, [], s0, ReadHead);
    var s1 := Apply(cfg, s0, ReadHead);
    assert s1.lh == [];
    Extend(cfg, d, [] + [ReadHead], s1, DiskWrite);
    steps, s := [] + [ReadHead] + [DiskWrite], Apply(cfg, s1, DiskWrite);
    PutThenGetHeader(s1.view[cfg.start], []);
  }

  lemma MulLe(a: nat, b: nat, m: nat)
    requires a <= b
    ensures a * m <= b * m
  {
  }

  lemma Admit(cfg: Config, q: nat, s: State, m: nat)
    requires Room(cfg, q) && m < q && Begun(cfg, s, m)
    ensures Enabled(cfg, s, Begin)
  {
    hide Shape;
    MulLe(m + 1, q, cfg.maxop);
  }

  lemma {:induction false} ReachBegun(cfg: Config, q: nat, m: nat) returns (steps: seq<Step>, s: State)
    requires Room(cfg, q) && m <= q
    ensures Reaches(cfg, EmptyDisk(cfg), steps, s) && Begun(cfg, s, m)
  {
    hide Reaches;
    if m == 0 {
      steps, s := Start(cfg);
    } else {
      hide Shape;
      var steps', s' := ReachBegun(cfg, q, m - 1);
      Admit(cfg, q, s', m - 1);
      Extend(cfg, EmptyDisk(cfg), steps', s', Begin);
      steps, s := steps' + [Begin], Apply(cfg, s', Begin);
    }
  }

  /* q operations have logged the first k home blocks, taking turns. */
  ghost predicate Filled(cfg: Config, q: nat, s: State, k: nat) {
    && Fresh(cfg, s) && s.phase == Running && s.lh == HomeBlocks(cfg, k) && s.outstanding == |s.ops| == q
    && (forall p :: 0 <= p < q ==> s.ops[p].status == Active && s.ops[p].blocks <= Share(cfg, q, p, cfg.maxop))
    && (forall i: nat :: i < k ==> HomeBlock(cfg, i) < |s.view| && s.view[HomeBlock(cfg, i)] == One())
  }

  ghost predicate AllIdle(s: State) {
    forall p :: 0 <= p < |s.ops| ==> s.ops[p].pending == None
  }

  /* The k-th new block is within the budget of the operation whose turn it is. */
  lemma NextInBudget(cfg: Config, q: nat, s: State, k: nat, b: nat)
    requires Room(cfg, q) && k < cfg.logsize && |s.ops| == q
             && s.ops[Turn(q, k)].blocks <= Share(cfg, q, Turn(q, k), cfg.maxop)
    requires b == HomeBlock(cfg, k)
    ensures cfg.Home(b) && b in Share(cfg, q, Turn(q, k), cfg.maxop) && |s.ops[Turn(q, k)].blocks + {b}| <= cfg.maxop
  {
    TurnAndLap(q, k);
    LapBound(q, k, cfg.maxop);
    ShareGains(cfg, q, Turn(q, k), Lap(q, k), s.ops[Turn(q, k)].blocks, b);
  }

  /* The operation whose turn it is takes the lock: one more block is in the list. */
  lemma AppendNext(cfg: Config, q: nat, steps: seq<Step>, s: State, k: nat) returns (s': State)
    requires Room(cfg, q) && k < cfg.logsize && Filled(cfg, q, s, k) && Waiting(s.ops, Turn(q, k), HomeBlock(cfg, k))
    requires Reaches(cfg, EmptyDisk(cfg), steps, s)
    ensures Reaches(cfg, EmptyDisk(cfg), steps + [Append(Turn(q, k), HomeBlock(cfg, k), One())], s')
    ensures Filled(cfg, q, s', k + 1) && s'.ops[Turn(q, k)].pending == None
    ensures forall p :: 0 <= p < q && p != Turn(q, k) ==> s'.ops[p] == s.ops[p]
  {
    hide Reaches;
    hide Shape;
    hide Turn;
    hide Share;
    var p, b := Turn(q, k), HomeBlock(cfg, k);
    NextInBudget(cfg, q, s, k, b);
    var step := Append(p, b, One());
    Extend(cfg, EmptyDisk(cfg), steps, s, step);
    s' := Apply(cfg, s, step);
    assert HomeBlocks(cfg, k + 1) == HomeBlocks(cfg, k) + [b];
    ViewSized(cfg, s);
    ViewSized(cfg, s');
  }

  lemma ViewSized(cfg: Config, s: State)
    requires Shape(cfg, s)
    ensures |s.view| == |s.disk| == cfg.nblocks && cfg.start < cfg.nblocks
  {
  }

  /* The operation whose turn it is passes the test of log_write. */
  lemma CheckNext(cfg: Config, q: nat, steps: seq<Step>, s: State, k: nat, j: nat) returns (s': State)
    requires Room(cfg, q) && j < cfg.logsize && k < cfg.logsize && k < cfg.size - 1 && Filled(cfg, q, s, k)
    requires s.ops[Turn(q, j)].pending == None && Reaches(cfg, EmptyDisk(cfg), steps, s)
    ensures Reaches(cfg, EmptyDisk(cfg), steps + [Check(Turn(q, j), HomeBlock(cfg, j))], s')
    ensures Filled(cfg, q, s', k) && Waiting(s'.ops, Turn(q, j), HomeBlock(cfg, j))
    ensures forall p :: 0 <= p < q && p != Turn(q, j) ==> s'.ops[p] == s.ops[p]
  {
    hide Reaches;
    hide Shape;
    var step := Check(Turn(q, j), HomeBlock(cfg, j));
    Extend(cfg, EmptyDisk(cfg), steps, s, step);
    s' := Apply(cfg, s, step);
  }

  /* Any fill level up to the limits of log_write is reached by operations in budget. */
  lemma {:induction false} ReachFilled(cfg: Config, q: nat, k: nat) returns (steps: seq<Step>, s: State)
    requires Room(cfg, q) && k <= cfg.logsize && k <= cfg.size - 1
    ensures Reaches(cfg, EmptyDisk(cfg), steps, s) && Filled(cfg, q, s, k) && AllIdle(s)
  {
    hide Reaches;
    hide Fresh;
    hide Turn;
    hide HomeBlock;
    if k == 0 {
      steps, s := ReachBegun(cfg, q, q);
      assert HomeBlocks(cfg, 0) == [];
    } else {
      var steps0, s0 := ReachFilled(cfg, q, k - 1);
      var s1 := CheckNext(cfg, q, steps0, s0, k - 1, k - 1);
      var steps1 := steps0 + [Check(Turn(q, k - 1), HomeBlock(cfg, k - 1))];
      s := AppendNext(cfg, q, steps1, s1, k - 1);
      steps := steps1 + [Append(Turn(q, k - 1), HomeBlock(cfg, k - 1), One())];
    }
  }

  // ----- the panic

  /* With the log cut into budgets of maxop blocks, as param.h does, operations within
     their budget never meet the "too big a transaction" panic on a new block exactly
     when the log region has more than logsize blocks. */
  lemma GuardExact(cfg: Config, q: nat)
    requires Room(cfg, q)
    ensures (forall d, steps, s, p, b :: !Refused(cfg, d, steps, s, p, b)) <==> cfg.size > cfg.logsize
  {
    hide Exec;
    hide Boot;
    hide BudgetedRun;
    if cfg.size > cfg.logsize {
      forall d, steps, s, p: nat, b ensures !Refused(cfg, d, steps, s, p, b) {
        if Refused(cfg, d, steps, s, p, b) {
          LogReservation(cfg, d, steps, s);
        }
      }
    } else {
      var steps, s := FirstRefusal(cfg, q);
    }
  }

  lemma NotListed(cfg: Config, k: nat)
    ensures HomeBlock(cfg, k) !in HomeBlocks(cfg, k)
  {
  }

  /* With a log of at most logsize blocks the panic is reached: the (size - 1)-st new
     block of a run in which every operation is within its budget. */
  lemma FirstRefusal(cfg: Config, q: nat) returns (steps: seq<Step>, s: State)
    requires Room(cfg, q) && cfg.size <= cfg.logsize
    ensures Refused(cfg, EmptyDisk(cfg), steps, s, Turn(q, cfg.size - 1), HomeBlock(cfg, cfg.size - 1))
  {
    hide Reaches;
    hide Fresh;
    hide HomeBlock;
    hide Share;
    steps, s := ReachFilled(cfg, q, cfg.size - 1);
    NextInBudget(cfg, q, s, cfg.size - 1, HomeBlock(cfg, cfg.size - 1));
    NotListed(cfg, cfg.size - 1);
  }

  /* The same guard stands before the search for an absorbed block: once logsize blocks
     are logged, an operation may not even log again a block it has logged already. */
  lemma AbsorbedWriteRefused(cfg: Config, q: nat) returns (steps: seq<Step>, s: State, p: nat, b: int)
    requires Room(cfg, q) && cfg.size > cfg.logsize
    ensures Reaches(cfg, EmptyDisk(cfg), steps, s) && s.phase == Running
    ensures Idle(s.ops, p) && b in s.lh && |s.ops[p].blocks + {b}| <= cfg.maxop
    ensures cfg.Full(|s.lh|)
  {
    hide Reaches;
    hide Fresh;
    MulLe(1, q, cfg.maxop);
    steps, s := ReachFilled(cfg, q, cfg.logsize);
    p, b := 0, HomeBlock(cfg, 0);
    assert s.lh[0] == b;
    NextInBudget(cfg, q, s, 0, b);
  }

  // ----- too many blocks in the list

  /* No two operations can be between the test of log_write and its append: only one is
     ever admitted, or the log is too small for any. */
  ghost predicate NoRace(cfg: Config, q: nat) {
    q == 1 || cfg.size == 1
  }

  /* An operation that has passed the test will still find room. */
  ghost predicate PassedFits(cfg: Config, s: State) {
    && (s.outstanding <= 1 || cfg.size == 1)
    && (forall p :: 0 <= p < |s.ops| && s.ops[p].status == Active && s.ops[p].pending.Some? ==> |s.lh| < cfg.size - 1)
  }

  lemma OneActive(ops: seq<Op>, p: nat, r: nat)
    requires CountActive(ops) <= 1 && p < |ops| && r < |ops| && ops[p].status == Active && p != r
    ensures ops[r].status != Active
  {
    if ops[r].status == Active {
      CountActiveUpdate(ops, p, ops[p].(status := Ended));
      ActiveMeansOutstanding(ops[p := ops[p].(status := Ended)], r);
    }
  }

  lemma FirstOnly(n: nat, out: nat, m: nat)
    requires m > 0 && n + (out + 1) * m <= m
    ensures out == 0
  {
    if out > 0 {
      MulLe(2, out + 1, m);
    }
  }

  lemma NoRaceAppend(cfg: Config, s: State, p: nat, b: int, data: Block)
    requires Shape(cfg, s) && PassedFits(cfg, s) && Enabled(cfg, s, Append(p, b, data))
    ensures PassedFits(cfg, Apply(cfg, s, Append(p, b, data)))
  {
    var s' := Apply(cfg, s, Append(p, b, data));
    forall r | 0 <= r < |s'.ops| ensures s'.ops[r].status == Active ==> s'.ops[r].pending == None {
      if r != p && s.outstanding <= 1 { OneActive(s.ops, p, r); }
    }
  }

  lemma NoRaceStep(cfg: Config, q: nat, s: State, step: Step)
    requires Room(cfg, q) && NoRace(cfg, q) && Shape(cfg, s) && PassedFits(cfg, s) && Enabled(cfg, s, step)
    ensures Roomy(cfg, s, step) && PassedFits(cfg, Apply(cfg, s, step))
  {
    hide ListShape;
    hide HeaderShape;
    hide UpdatesOk;
    hide PendingOk;
    match step
    case Begin =>
      if q == 1 { FirstOnly(|s.lh|, s.outstanding, cfg.maxop); }
    case Append(p, b, data) => NoRaceAppend(cfg, s, p, b, data);
    case Check(p, b) =>
    case End(p) =>
    case ReadHead => NoneOutstanding(s.ops);
    case DiskWrite =>
    case Finish =>
    case Crash =>
  }

  lemma {:induction false} NoRaceRoomy(cfg: Config, q: nat, d: seq<Block>, steps: seq<Step>, s: State)
    requires Room(cfg, q) && NoRace(cfg, q) && DiskOk(cfg, d) && Exec(cfg, Boot(cfg, d), steps) == Some(s)
    ensures RoomyRun(cfg, Boot(cfg, d), steps) && Shape(cfg, s) && PassedFits(cfg, s)
  {
    BootShape(cfg, d);
    if steps != [] {
      hide Shape;
      hide PassedFits;
      hide Boot;
      var init, last := steps[..|steps| - 1], steps[|steps| - 1];
      var m := Exec(cfg, Boot(cfg, d), init).value;
      NoRaceRoomy(cfg, q, d, init, m);
      NoRaceStep(cfg, q, m, last);
      ShapeKeeps(cfg, m, last);
    }
  }

  /* The failing run.  q operations in turn have logged size - 2 blocks.  The next two of
     them both pass the test, then both append, and the list has a block more than the log. */
  lemma BothPass(cfg: Config, q: nat) returns (fill: seq<Step>, s0: State, s: State)
    requires Room(cfg, q) && 2 <= q && 2 <= cfg.size <= cfg.logsize
    ensures Reaches(cfg, EmptyDisk(cfg), fill, s0) && |s0.lh| == cfg.size - 2
    ensures var p0, b0 := Turn(q, cfg.size - 2), HomeBlock(cfg, cfg.size - 2);
            var p1, b1 := Turn(q, cfg.size - 1), HomeBlock(cfg, cfg.size - 1);
            && p0 != p1 && b0 != b1
            && Reaches(cfg, EmptyDisk(cfg), fill + [Check(p0, b0)] + [Check(p1, b1)]
                                            + [Append(p0, b0, One())] + [Append(p1, b1, One())], s)
    ensures Filled(cfg, q, s, cfg.size) && AllIdle(s)
  {
    hide Reaches;
    hide Fresh;
    var n := cfg.size - 2;
    fill, s0 := ReachFilled(cfg, q, n);
    var s1 := CheckNext(cfg, q, fill, s0, n, n);
    var f1 := fill + [Check(Turn(q, n), HomeBlock(cfg, n))];
    var s2 := CheckNext(cfg, q, f1, s1, n, n + 1);
    var f2 := f1 + [Check(Turn(q, n + 1), HomeBlock(cfg, n + 1))];
    var s3 := AppendNext(cfg, q, f2, s2, n);
    var f3 := f2 + [Append(Turn(q, n), HomeBlock(cfg, n), One())];
    s := AppendNext(cfg, q, f3, s3, n + 1);
    NotListed(cfg, n + 1);
    assert HomeBlocks(cfg, n + 1)[n] == HomeBlock(cfg, n);
  }

  /* Within their budgets, the operations never list more blocks than the log on disk has
     after its header, if and only if the log has more than logsize blocks or no race. */
  lemma FitsExact(cfg: Config, q: nat)
    requires Room(cfg, q)
    ensures (forall d, steps, s :: Reaches(cfg, d, steps, s) ==> |s.lh| <= cfg.size - 1)
            <==> cfg.size > cfg.logsize || NoRace(cfg, q)
  {
    hide Atomic;
    hide Reaches;
    hide Fresh;
    hide Share;
    if cfg.size > cfg.logsize || NoRace(cfg, q) {
      forall d, steps, s | Reaches(cfg, d, steps, s) ensures |s.lh| <= cfg.size - 1 {
        ReachesSound(cfg, q, d, steps, s);
      }
    } else {
      var fill, s0, s := BothPass(cfg, q);
      assert |s.lh| == cfg.size;
    }
  }

  lemma ReachesSound(cfg: Config, q: nat, d: seq<Block>, steps: seq<Step>, s: State)
    requires Room(cfg, q) && Reaches(cfg, d, steps, s) && (cfg.size > cfg.logsize || NoRace(cfg, q))
    ensures |s.lh| <= cfg.size - 1 && Atomic(cfg, d, s)
  {
    hide Atomic;
    hide Exec;
    hide Boot;
    hide BudgetedRun;
    hide RoomyRun;
    if cfg.size > cfg.logsize {
      CrashAtomicity(cfg, d, steps, s);
    } else {
      NoRaceRoomy(cfg, q, d, steps, s);
      RoomyAtomic(cfg, d, steps, s);
    }
    Bounded(cfg, s);
  }

  lemma Bounded(cfg: Config, s: State)
    requires Inv(cfg, s)
    ensures |s.lh| <= cfg.size - 1
  {
  }

  // ----- what the extra block does to the disk

  /* The first m of q operations have ended, after logging `size` blocks. */
  ghost predicate Ending(cfg: Config, q: nat, s: State, m: nat) {
    && Fresh(cfg, s) && s.lh == HomeBlocks(cfg, cfg.size) && |s.ops| == q && s.outstanding == q - m
    && s.phase == (if m < q then Running else WritingLog(0))
    && (forall p: nat :: m <= p < q ==> Idle(s.ops, p))
    && Dirty(cfg, s)
  }

  /* Every listed block has new contents in the cache. */
  ghost predicate Dirty(cfg: Config, s: State) {
    forall i: nat :: i < cfg.size ==> HomeBlock(cfg, i) < |s.view| && s.view[HomeBlock(cfg, i)] == One()
  }

  lemma {:induction false} ReachEnding(cfg: Config, q: nat, m: nat) returns (steps: seq<Step>, s: State)
    requires Room(cfg, q) && 2 <= q && 2 <= cfg.size <= cfg.logsize && m <= q
    ensures Reaches(cfg, EmptyDisk(cfg), steps, s) && Ending(cfg, q, s, m)
  {
    hide Reaches;
    if m == 0 {
      hide Fresh;
      var fill, s0;
      fill, s0, s := BothPass(cfg, q);
      var p0, p1 := Turn(q, cfg.size - 2), Turn(q, cfg.size - 1);
      var b0, b1 := HomeBlock(cfg, cfg.size - 2), HomeBlock(cfg, cfg.size - 1);
      steps := fill + [Check(p0, b0)] + [Check(p1, b1)] + [Append(p0, b0, One())] + [Append(p1, b1, One())];
    } else {
      hide Shape;
      hide HomeBlock;
      var steps', s' := ReachEnding(cfg, q, m - 1);
      Extend(cfg, EmptyDisk(cfg), steps', s', End(m - 1));
      steps, s := steps' + [End(m - 1)], Apply(cfg, s', End(m - 1));
      forall p: nat | m <= p < q ensures Idle(s.ops, p) {
        assert Idle(s'.ops, p);
      }
    }
  }

  /* The commit has copied t blocks to the places after the header; the last of `size`
     places is outside of the log. */
  ghost predicate Copying(cfg: Config, s: State, t: nat) {
    && Fresh(cfg, s) && s.lh == HomeBlocks(cfg, cfg.size) && s.phase == WritingLog(t)
    && (t > 0 ==> cfg.start + t < |s.disk| && s.disk[cfg.start + t] == One())
    && Dirty(cfg, s)
  }

  lemma {:induction false} ReachCopying(cfg: Config, q: nat, t: nat) returns (steps: seq<Step>, s: State)
    requires Room(cfg, q) && 2 <= q && 2 <= cfg.size <= cfg.logsize && cfg.start + cfg.size < cfg.nblocks
             && t <= cfg.size
    ensures Reaches(cfg, EmptyDisk(cfg), steps, s) && Copying(cfg, s, t)
  {
    hide Reaches;
    hide Shape;
    if t == 0 {
      steps, s := ReachEnding(cfg, q, q);
    } else {
      var steps', s' := ReachCopying(cfg, q, t - 1);
      ViewSized(cfg, s');
      assert s'.lh[t - 1] == HomeBlock(cfg, t - 1);
      Extend(cfg, EmptyDisk(cfg), steps', s', DiskWrite);
      steps, s := steps' + [DiskWrite], Apply(cfg, s', DiskWrite);
    }
  }

  lemma EmptyLogical(cfg: Config, b: nat)
    requires cfg.Valid() && b < cfg.nblocks
    ensures Logical(cfg, EmptyDisk(cfg))[b] == Zero()
  {
  }

  /* The failing run continued into the commit: before any header is written, the block
     after the log, which belongs to the file system, has lost its contents. */
  lemma AtomicityLost(cfg: Config, q: nat) returns (steps: seq<Step>, s: State)
    requires Room(cfg, q) && 2 <= q && 2 <= cfg.size <= cfg.logsize && cfg.start + cfg.size < cfg.nblocks
    ensures Reaches(cfg, EmptyDisk(cfg), steps, s) && s.durable == 0
    ensures cfg.Home(cfg.start + cfg.size) && |s.disk| == cfg.nblocks
    ensures s.disk[cfg.start + cfg.size] != EmptyDisk(cfg)[cfg.start + cfg.size]
    ensures !Atomic(cfg, EmptyDisk(cfg), s)
  {
    hide Reaches;
    hide AllOrNothing;
    steps, s := ReachCopying(cfg, q, cfg.size);
    var b := cfg.start + cfg.size;
    ViewSized(cfg, s);
    EmptyLogical(cfg, b);
    assert One()[0] != Zero()[0];
    NotAtomic(cfg, EmptyDisk(cfg), s, b);
  }

  /* With nothing durable and an empty header, a home block that has changed is damage. */
  lemma NotAtomic(cfg: Config, d: seq<Block>, s: State, b: nat)
    requires DiskOk(cfg, d) && Fresh(cfg, s) && cfg.Home(b) && s.disk[b] != Logical(cfg, d)[b]
    ensures !Atomic(cfg, d, s)
  {
    hide LogicalBlock;
    hide AllOrNothing;
    assert s.updates[..0] == [];
    assert !Elsewhere(cfg, s.disk, [], Logical(cfg, d));
  }

  /* Crashes stay atomic in every run within budget if and only if the log has more than
     logsize blocks or no race, for a log that does not end the disk. */
  lemma AtomicityExact(cfg: Config, q: nat)
    requires Room(cfg, q) && cfg.start + cfg.size < cfg.nblocks
    ensures (forall d, steps, s :: Reaches(cfg, d, steps, s) ==> Atomic(cfg, d, s))
            <==> cfg.size > cfg.logsize || NoRace(cfg, q)
  {
    hide Reaches;
    hide Atomic;
    if cfg.size > cfg.logsize || NoRace(cfg, q) {
      forall d, steps, s | Reaches(cfg, d, steps, s) ensures Atomic(cfg, d, s) {
        ReachesSound(cfg, q, d, steps, s);
      }
    } else {
      var steps, s := AtomicityLost(cfg, q);
    }
  }
}
