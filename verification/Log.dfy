/**
The write-ahead log of log.c: group commit by any number of concurrent file-system
operations, one block write at a time, with a crash allowed before any step.

`Apply` is the protocol as a state machine.  log_write is two steps, because its test for
room reads lh.n before it takes the lock: `Check` is the test and `Append` the part under
the lock, and other processes may take any steps in between.  Commit and recovery are
spread over one `DiskWrite` step per block that reaches the disk, so a `Crash` step may
fall between any two of them, also inside recovery.
*/
module WriteAheadLog {
  import opened Wrappers

  /* A disk block is 512 bytes, that is 128 words of 32 bits. */
  const WORDS: nat := 128

  type Block = b: seq<int> | |b| == WORDS witness seq(WORDS, i => 0)

  /* Where the log lies on disk and the limits log.c is compiled with. */
  datatype Config = Config(start: nat, size: nat, nblocks: nat, logsize: nat, maxop: nat) {
    predicate Valid() {
      0 < size && start + size <= nblocks && logsize + 1 < WORDS
    }

    /* A block that may be logged: on the disk and outside the log itself. */
    predicate Home(b: int) {
      0 <= b < nblocks && !(start <= b < start + size)
    }

    /* The two guards of log_write: the next update would be one too many. */
    predicate Full(n: nat) {
      n >= logsize || n >= size - 1
    }
  }

  datatype OpStatus = Active | Ended | Lost

  /* One file-system operation, the distinct blocks it has logged, and the block for which
     it has passed the test of log_write but not yet taken the lock. */
  datatype Op = Op(status: OpStatus, blocks: set<int>, pending: Option<int>)

  /* One log_write: which operation put which contents into which block. */
  datatype Update = Update(op: nat, block: int, data: Block)

  /* Where the committing or recovering code is; `tail` is its loop counter. */
  datatype Phase =
    | Down
    | Recovering(tail: nat)
    | Running
    | WritingLog(tail: nat)
    | Installing(tail: nat)
    | Committed

  /* `view` is what bread returns.  The last three fields are history: no step's guard
     looks at them.  `updates[..durable]` is what the last commit record on disk covers. */
  datatype State = State(
    disk: seq<Block>,
    view: seq<Block>,
    lh: seq<int>,
    outstanding: nat,
    phase: Phase,
    ops: seq<Op>,
    base: seq<Block>,
    updates: seq<Update>,
    durable: nat)

  datatype Step =
    | Begin
    | Check(p: nat, b: int)
    | Append(p: nat, b: int, data: Block)
    | End(p: nat)
    | ReadHead
    | DiskWrite
    | Finish
    | Crash

  // ----- the header block

  function PutHeader(prev: Block, lh: seq<int>): (b: Block)
    requires |lh| < WORDS
  {
    [|lh|] + lh + prev[1 + |lh|..]
  }

  /* The block numbers recorded in a header block. */
  function HeaderOf(b: Block): (lh: seq<int>) {
    if 0 < b[0] < WORDS then b[1..1 + b[0]] else []
  }

  lemma PutThenGetHeader(prev: Block, lh: seq<int>)
    requires |lh| < WORDS
    ensures PutHeader(prev, lh)[0] == |lh| && HeaderOf(PutHeader(prev, lh)) == lh
  {
  }

  // ----- the machine

  predicate Enabled(cfg: Config, s: State, step: Step)
    requires Shape(cfg, s)
  {
    match step
    case Begin =>
      s.phase == Running && |s.lh| + (s.outstanding + 1) * cfg.maxop <= cfg.logsize
    case Check(p, b) =>
      s.phase == Running && Idle(s.ops, p) && cfg.Home(b) && !cfg.Full(|s.lh|)
    case Append(p, b, _) =>
      s.phase == Running && Waiting(s.ops, p, b) && InArray(cfg, s.lh, b)
    case End(p) =>
      s.phase == Running && Idle(s.ops, p)
    case ReadHead => s.phase == Down
    case DiskWrite =>
      && (s.phase.WritingLog? || s.phase.Installing? || s.phase.Recovering?)
      && (s.phase.tail < |s.lh| ==> cfg.start + s.phase.tail + 1 < cfg.nblocks)
    case Finish => s.phase == Committed
    case Crash => true
  }

  /* Operation p runs outside of log_write. */
  predicate Idle(ops: seq<Op>, p: nat) {
    p < |ops| && ops[p].status == Active && ops[p].pending == None
  }

  /* Operation p is about to take the lock in log_write(b). */
  predicate Waiting(ops: seq<Op>, p: nat, b: int) {
    p < |ops| && ops[p].status == Active && ops[p].pending == Some(b)
  }

  /* The array lh.block has a place for b.  The code does not test this again; writing
     past the array has no meaning, and LogReservation shows that it does not happen. */
  predicate InArray(cfg: Config, lh: seq<int>, b: int) {
    b in lh || |lh| < cfg.logsize
  }

  /* Distinct home blocks, as many as the array holds. */
  predicate ListShape(cfg: Config, lh: seq<int>) {
    && |lh| <= cfg.logsize
    && (forall i :: 0 <= i < |lh| ==> cfg.Home(lh[i]))
    && (forall i, j :: 0 <= i < j < |lh| ==> lh[i] != lh[j])
  }

  /* A list whose blocks also fit in the log on disk, after its header. */
  predicate LogList(cfg: Config, lh: seq<int>) {
    ListShape(cfg, lh) && |lh| < cfg.size
  }

  predicate HeaderShape(cfg: Config, b: Block) {
    0 <= b[0] < WORDS && ListShape(cfg, HeaderOf(b))
  }

  /* A header block that recovery can trust. */
  predicate HeaderOk(cfg: Config, b: Block) {
    0 <= b[0] < WORDS && LogList(cfg, HeaderOf(b))
  }

  predicate UpdatesOk(cfg: Config, updates: seq<Update>, nops: nat) {
    forall i :: 0 <= i < |updates| ==> cfg.Home(updates[i].block) && updates[i].op < nops
  }

  predicate PendingOk(cfg: Config, ops: seq<Op>) {
    forall p :: 0 <= p < |ops| && ops[p].pending.Some? ==> cfg.Home(ops[p].pending.value)
  }

  /* Operations and log entries exist only where the protocol allows them. */
  predicate Orderly(s: State) {
    && (s.phase.WritingLog? || s.phase.Installing? || s.phase.Recovering? ==> s.phase.tail <= |s.lh|)
    && (s.phase != Running ==> s.outstanding == 0)
    && (s.outstanding == 0 && s.phase == Running ==> s.lh == [])
    && (s.phase == Committed || s.phase == Down ==> s.lh == [])
  }

  /* What every state satisfies in every run (ShapeKeeps), also in one that has put more
     blocks in the list than the log has room for; it makes the steps well defined. */
  predicate Shape(cfg: Config, s: State) {
    && cfg.Valid()
    && |s.disk| == |s.view| == |s.base| == cfg.nblocks
    && ListShape(cfg, s.lh)
    && HeaderShape(cfg, s.disk[cfg.start]) && s.view[cfg.start] == s.disk[cfg.start]
    && Orderly(s)
    && s.durable <= |s.updates|
    && UpdatesOk(cfg, s.updates, |s.ops|) && PendingOk(cfg, s.ops)
    && s.outstanding == CountActive(s.ops)
  }

  function CountActive(ops: seq<Op>): nat {
    if ops == [] then 0
    else CountActive(ops[..|ops| - 1]) + if ops[|ops| - 1].status == Active then 1 else 0
  }

  function Absorb(lh: seq<int>, b: int): seq<int> {
    if b in lh then lh else lh + [b]
  }

  function Abandon(ops: seq<Op>): (r: seq<Op>) {
    seq(|ops|, i requires 0 <= i < |ops| =>
      if ops[i].status == Active then ops[i].(status := Lost) else ops[i])
  }

  /* bwrite: the block is on disk, and the cache agrees with it. */
  function Put(s: State, a: nat, data: Block): State
    requires a < |s.disk| == |s.view|
  {
    s.(disk := s.disk[a := data], view := s.view[a := data])
  }

  function Apply(cfg: Config, s: State, step: Step): State
    requires Shape(cfg, s) && Enabled(cfg, s, step)
  {
    match step
    case Begin =>
      s.(ops := s.ops + [Op(Active, {}, None)], outstanding := s.outstanding + 1)
    case Check(p, b) =>
      s.(ops := s.ops[p := s.ops[p].(pending := Some(b))])
    case Append(p, b, data) =>
      s.(view := s.view[b := data],
         lh := Absorb(s.lh, b),
         ops := s.ops[p := s.ops[p].(blocks := s.ops[p].blocks + {b}, pending := None)],
         updates := s.updates + [Update(p, b, data)])
    case End(p) =>
      ActiveMeansOutstanding(s.ops, p);
      var t := s.(ops := s.ops[p := s.ops[p].(status := Ended)], outstanding := s.outstanding - 1);
      if t.outstanding > 0 then t
      else t.(phase := if |s.lh| > 0 then WritingLog(0) else Committed)
    case ReadHead =>
      s.(lh := HeaderOf(s.view[cfg.start]), phase := Recovering(0))
    case DiskWrite => ApplyDiskWrite(cfg, s)
    case Finish =>
      s.(phase := Running)
    case Crash =>
      s.(view := s.disk, lh := [], outstanding := 0, phase := Down,
         ops := Abandon(s.ops), updates := s.updates[..s.durable])
  }

  /* s goes to s' by this step. */
  predicate Takes(cfg: Config, s: State, step: Step, s': State) {
    Shape(cfg, s) && Enabled(cfg, s, step) && s' == Apply(cfg, s, step)
  }

  /* The next block write of write_log, write_head, install_trans or recovery. */
  function ApplyDiskWrite(cfg: Config, s: State): State
    requires Shape(cfg, s) && Enabled(cfg, s, DiskWrite)
  {
    match s.phase
    case WritingLog(t) =>
      if t < |s.lh| then
        Put(s, cfg.start + t + 1, s.view[s.lh[t]]).(phase := WritingLog(t + 1))
      else
        Put(s, cfg.start, PutHeader(s.view[cfg.start], s.lh)).(phase := Installing(0), durable := |s.updates|)
    case Installing(t) =>
      if t < |s.lh| then
        Put(s, s.lh[t], s.view[cfg.start + t + 1]).(phase := Installing(t + 1))
      else
        Put(s, cfg.start, PutHeader(s.view[cfg.start], [])).(phase := Committed, lh := [])
    case Recovering(t) =>
      if t < |s.lh| then
        Put(s, s.lh[t], s.view[cfg.start + t + 1]).(phase := Recovering(t + 1))
      else
        Put(s, cfg.start, PutHeader(s.view[cfg.start], [])).(phase := Running, lh := [])
    case _ => s
  }

  lemma ActiveMeansOutstanding(ops: seq<Op>, p: nat)
    requires p < |ops| && ops[p].status == Active
    ensures CountActive(ops) > 0
  {
    if p < |ops| - 1 {
      ActiveMeansOutstanding(ops[..|ops| - 1], p);
    }
  }

  // ----- what the disk means

  /* The contents after a sequence of updates. */
  function Replay(base: seq<Block>, us: seq<Update>): (r: seq<Block>)
    requires forall i :: 0 <= i < |us| ==> 0 <= us[i].block < |base|
    ensures |r| == |base|
  {
    if us == [] then base
    else
      var u := us[|us| - 1];
      Replay(base, us[..|us| - 1])[u.block := u.data]
  }

  /* The logical state of the last committed transaction. */
  function DurableState(cfg: Config, s: State): seq<Block>
    requires Shape(cfg, s)
  {
    Replay(s.base, s.updates[..s.durable])
  }

  /* The logical state including operations still running. */
  function CurrentState(cfg: Config, s: State): seq<Block>
    requires Shape(cfg, s)
  {
    Replay(s.base, s.updates)
  }

  ghost predicate SameHome(cfg: Config, d: seq<Block>, target: seq<Block>)
    requires |d| == |target| == cfg.nblocks
  {
    forall b {:trigger cfg.Home(b)} :: cfg.Home(b) ==> d[b] == target[b]
  }

  /* Read through its log header, the disk holds `target`: a block named in the header is
     represented by its copy in the log, every other block by itself. */
  ghost predicate RecoversTo(cfg: Config, d: seq<Block>, target: seq<Block>)
    requires cfg.Valid() && |d| == |target| == cfg.nblocks && HeaderOk(cfg, d[cfg.start])
  {
    var h := HeaderOf(d[cfg.start]);
    LogHolds(cfg, d, h, |h|, target) && Elsewhere(cfg, d, h, target)
  }

  /* The first `t` blocks of the log are the contents of lh[..t] in `target`. */
  ghost predicate LogHolds(cfg: Config, d: seq<Block>, lh: seq<int>, t: nat, target: seq<Block>)
    requires cfg.Valid() && |d| == |target| == cfg.nblocks && LogList(cfg, lh) && t <= |lh|
  {
    forall i :: 0 <= i < t ==> d[cfg.start + 1 + i] == target[lh[i]]
  }

  /* Home blocks not listed in `lh` agree. */
  ghost predicate Elsewhere(cfg: Config, d: seq<Block>, lh: seq<int>, target: seq<Block>)
    requires |d| == |target| == cfg.nblocks
  {
    forall b {:trigger cfg.Home(b)} :: cfg.Home(b) && b !in lh ==> d[b] == target[b]
  }

  /* The loop of install_trans has copied the first `t` logged blocks home. */
  ghost predicate Installed(cfg: Config, d: seq<Block>, lh: seq<int>, t: nat, target: seq<Block>)
    requires |d| == |target| == cfg.nblocks && LogList(cfg, lh) && t <= |lh|
  {
    forall i :: 0 <= i < t ==> d[lh[i]] == target[lh[i]]
  }

  /* Outside the home blocks the cache agrees with the disk. */
  ghost predicate LogCached(cfg: Config, view: seq<Block>, d: seq<Block>)
    requires |d| == |view| == cfg.nblocks
  {
    forall a {:trigger cfg.Home(a)} :: 0 <= a < cfg.nblocks && !cfg.Home(a) ==> view[a] == d[a]
  }

  /* No operation is half durable: the durable updates belong to operations that have
     ended and that have no update outside the durable part. */
  ghost predicate AllOrNothing(updates: seq<Update>, durable: nat, ops: seq<Op>)
    requires durable <= |updates|
    requires forall i :: 0 <= i < |updates| ==> updates[i].op < |ops|
  {
    && (forall i :: 0 <= i < durable ==> ops[updates[i].op].status == Ended)
    && (forall i, j :: 0 <= i < durable <= j < |updates| ==> updates[i].op != updates[j].op)
    && (forall i :: 0 <= i < |updates| ==> ops[updates[i].op].status != Lost)
  }

  ghost predicate PhaseOk(cfg: Config, s: State, h: seq<int>, dur: seq<Block>, cur: seq<Block>)
    requires Shape(cfg, s) && LogList(cfg, s.lh) && |dur| == |cur| == cfg.nblocks
  {
    if s.phase.Down? || s.phase.Recovering? then
      && s.view == s.disk
      && s.durable == |s.updates|
      && (s.phase.Recovering? ==> s.lh == h && Installed(cfg, s.disk, s.lh, s.phase.tail, dur))
    else
      && SameHome(cfg, s.view, cur)
      && Elsewhere(cfg, s.view, s.lh, dur)
      && LogCached(cfg, s.view, s.disk)
      && (s.lh == [] ==> s.durable == |s.updates|)
      && (s.phase.WritingLog? ==> LogHolds(cfg, s.disk, s.lh, s.phase.tail, cur))
      && (if s.phase.Installing? then
            s.durable == |s.updates| && h == s.lh && Installed(cfg, s.disk, s.lh, s.phase.tail, dur)
          else h == [])
  }

  ghost predicate Inv(cfg: Config, s: State) {
    && Shape(cfg, s) && LogList(cfg, s.lh) && HeaderOk(cfg, s.disk[cfg.start])
    && RecoversTo(cfg, s.disk, DurableState(cfg, s))
    && AllOrNothing(s.updates, s.durable, s.ops)
    && PhaseOk(cfg, s, HeaderOf(s.disk[cfg.start]), DurableState(cfg, s), CurrentState(cfg, s))
  }

  // ----- what one block write does to the disk

  lemma LogBlockWrite(cfg: Config, d: seq<Block>, target: seq<Block>, lh: seq<int>, cur: seq<Block>, t: nat,
                      data: Block)
    requires cfg.Valid() && |d| == |target| == |cur| == cfg.nblocks && LogList(cfg, lh) && t < |lh|
    requires HeaderOk(cfg, d[cfg.start]) && HeaderOf(d[cfg.start]) == [] && RecoversTo(cfg, d, target)
    requires LogHolds(cfg, d, lh, t, cur) && data == cur[lh[t]]
    ensures var d' := d[cfg.start + 1 + t := data];
            HeaderOk(cfg, d'[cfg.start]) && HeaderOf(d'[cfg.start]) == [] && RecoversTo(cfg, d', target)
            && LogHolds(cfg, d', lh, t + 1, cur)
  {
  }

  /* Writing the header switches the meaning of the disk from `dur` to `cur` at once. */
  lemma HeaderWrite(cfg: Config, d: seq<Block>, dur: seq<Block>, lh: seq<int>, cur: seq<Block>)
    requires cfg.Valid() && |d| == |dur| == |cur| == cfg.nblocks && LogList(cfg, lh)
    requires HeaderOk(cfg, d[cfg.start]) && HeaderOf(d[cfg.start]) == [] && RecoversTo(cfg, d, dur)
    requires LogHolds(cfg, d, lh, |lh|, cur) && Elsewhere(cfg, cur, lh, dur)
    ensures var d' := d[cfg.start := PutHeader(d[cfg.start], lh)];
            HeaderOk(cfg, d'[cfg.start]) && HeaderOf(d'[cfg.start]) == lh && RecoversTo(cfg, d', cur)
  {
    PutThenGetHeader(d[cfg.start], lh);
  }

  lemma InstallCopy(cfg: Config, d: seq<Block>, h: seq<int>, target: seq<Block>, t: nat)
    requires cfg.Valid() && |d| == |target| == cfg.nblocks && LogList(cfg, h) && t < |h|
    requires LogHolds(cfg, d, h, |h|, target) && Elsewhere(cfg, d, h, target) && Installed(cfg, d, h, t, target)
    ensures var d' := d[h[t] := d[cfg.start + 1 + t]];
            && d'[cfg.start] == d[cfg.start]
            && LogHolds(cfg, d', h, |h|, target) && Elsewhere(cfg, d', h, target)
            && Installed(cfg, d', h, t + 1, target)
  {
    assert cfg.Home(h[t]);
  }

  lemma InstallWrite(cfg: Config, d: seq<Block>, target: seq<Block>, t: nat)
    requires cfg.Valid() && |d| == |target| == cfg.nblocks
    requires HeaderOk(cfg, d[cfg.start]) && RecoversTo(cfg, d, target)
    requires t < |HeaderOf(d[cfg.start])| && Installed(cfg, d, HeaderOf(d[cfg.start]), t, target)
    ensures var h := HeaderOf(d[cfg.start]);
            var d' := d[h[t] := d[cfg.start + 1 + t]];
            d'[cfg.start] == d[cfg.start] && RecoversTo(cfg, d', target) && Installed(cfg, d', h, t + 1, target)
  {
    hide HeaderOf;
    hide LogHolds;
    hide Elsewhere;
    hide Installed;
    InstallCopy(cfg, d, HeaderOf(d[cfg.start]), target, t);
  }

  /* Clearing the header keeps the meaning once every logged block is at home. */
  lemma ClearWrite(cfg: Config, d: seq<Block>, target: seq<Block>)
    requires cfg.Valid() && |d| == |target| == cfg.nblocks
    requires HeaderOk(cfg, d[cfg.start]) && RecoversTo(cfg, d, target)
    requires Installed(cfg, d, HeaderOf(d[cfg.start]), |HeaderOf(d[cfg.start])|, target)
    ensures var d' := d[cfg.start := PutHeader(d[cfg.start], [])];
            HeaderOk(cfg, d'[cfg.start]) && HeaderOf(d'[cfg.start]) == [] && RecoversTo(cfg, d', target)
            && SameHome(cfg, d', target)
  {
    PutThenGetHeader(d[cfg.start], []);
  }

  // ----- every step keeps the invariant

  lemma CountActiveUpdate(ops: seq<Op>, p: nat, op: Op)
    requires p < |ops|
    ensures CountActive(ops[p := op]) ==
            CountActive(ops) - (if ops[p].status == Active then 1 else 0) + (if op.status == Active then 1 else 0)
  {
    var n := |ops| - 1;
    if p < n {
      CountActiveUpdate(ops[..n], p, op);
      assert ops[p := op][..n] == ops[..n][p := op];
    } else {
      assert ops[p := op][..n] == ops[..n];
    }
  }

  lemma NoneActive(ops: seq<Op>)
    requires forall i :: 0 <= i < |ops| ==> ops[i].status != Active
    ensures CountActive(ops) == 0
  {
  }

  lemma NoneOutstanding(ops: seq<Op>)
    requires CountActive(ops) == 0
    ensures forall i :: 0 <= i < |ops| ==> ops[i].status != Active
  {
    forall i | 0 <= i < |ops| ensures ops[i].status != Active {
      if ops[i].status == Active {
        ActiveMeansOutstanding(ops, i);
      }
    }
  }

  lemma BeginShape(cfg: Config, s: State)
    requires Shape(cfg, s) && Enabled(cfg, s, Begin)
    ensures Shape(cfg, Apply(cfg, s, Begin))
  {
    assert (s.ops + [Op(Active, {}, None)])[..|s.ops|] == s.ops;
  }

  lemma CheckShape(cfg: Config, s: State, p: nat, b: int)
    requires Shape(cfg, s) && Enabled(cfg, s, Check(p, b))
    ensures Shape(cfg, Apply(cfg, s, Check(p, b)))
  {
    CountActiveUpdate(s.ops, p, s.ops[p].(pending := Some(b)));
  }

  lemma AppendShape(cfg: Config, s: State, p: nat, b: int, data: Block)
    requires Shape(cfg, s) && Enabled(cfg, s, Append(p, b, data))
    ensures Shape(cfg, Apply(cfg, s, Append(p, b, data)))
  {
    var s' := Apply(cfg, s, Append(p, b, data));
    CountActiveUpdate(s.ops, p, s'.ops[p]);
    ActiveMeansOutstanding(s.ops, p);
    assert ListShape(cfg, s'.lh);
    assert UpdatesOk(cfg, s'.updates, |s'.ops|);
  }

  lemma EndShape(cfg: Config, s: State, p: nat)
    requires Shape(cfg, s) && Enabled(cfg, s, End(p))
    ensures Shape(cfg, Apply(cfg, s, End(p)))
  {
    ActiveMeansOutstanding(s.ops, p);
    CountActiveUpdate(s.ops, p, s.ops[p].(status := Ended));
  }

  lemma DiskWriteShape(cfg: Config, s: State)
    requires Shape(cfg, s) && Enabled(cfg, s, DiskWrite)
    ensures Shape(cfg, Apply(cfg, s, DiskWrite))
  {
    PutThenGetHeader(s.view[cfg.start], s.lh);
    PutThenGetHeader(s.view[cfg.start], []);
  }

  lemma CrashShape(cfg: Config, s: State)
    requires Shape(cfg, s)
    ensures Shape(cfg, Apply(cfg, s, Crash))
  {
    NoneActive(Abandon(s.ops));
  }

  /* No step leads outside of the states the machine is defined on. */
  lemma ShapeKeeps(cfg: Config, s: State, step: Step)
    requires Shape(cfg, s) && Enabled(cfg, s, step)
    ensures Shape(cfg, Apply(cfg, s, step))
  {
    match step
    case Begin => BeginShape(cfg, s);
    case Check(p, b) => CheckShape(cfg, s, p, b);
    case Append(p, b, data) => AppendShape(cfg, s, p, b, data);
    case End(p) => EndShape(cfg, s, p);
    case ReadHead =>
    case DiskWrite => DiskWriteShape(cfg, s);
    case Finish =>
    case Crash => CrashShape(cfg, s);
  }

  lemma BeginKeeps(cfg: Config, s: State)
    requires Inv(cfg, s) && Enabled(cfg, s, Begin)
    ensures Inv(cfg, Apply(cfg, s, Begin))
  {
    ShapeKeeps(cfg, s, Begin);
  }

  lemma CheckKeeps(cfg: Config, s: State, p: nat, b: int)
    requires Inv(cfg, s) && Enabled(cfg, s, Check(p, b))
    ensures Inv(cfg, Apply(cfg, s, Check(p, b)))
  {
    hide RecoversTo;
    hide PendingOk;
    hide CountActive;
    hide Replay;
    ShapeKeeps(cfg, s, Check(p, b));
  }

  /* There is room in the log on disk for what log_write is about to append. */
  predicate Roomy(cfg: Config, s: State, step: Step) {
    step.Append? ==> step.b in s.lh || |s.lh| < cfg.size - 1
  }

  lemma AppendStates(cfg: Config, s: State, p: nat, b: int, data: Block)
    requires Shape(cfg, s) && Enabled(cfg, s, Append(p, b, data))
    ensures var s' := Apply(cfg, s, Append(p, b, data));
            && Shape(cfg, s')
            && DurableState(cfg, s') == DurableState(cfg, s)
            && CurrentState(cfg, s') == CurrentState(cfg, s)[b := data]
  {
    ShapeKeeps(cfg, s, Append(p, b, data));
    var s' := Apply(cfg, s, Append(p, b, data));
    assert s'.updates[..s.durable] == s.updates[..s.durable];
    assert s'.updates[..|s.updates|] == s.updates;
  }

  lemma AppendAtomic(updates: seq<Update>, durable: nat, ops: seq<Op>, p: nat, u: Update, op: Op)
    requires p < |ops| && ops[p].status == Active == op.status && u.op == p && durable <= |updates|
    requires forall i :: 0 <= i < |updates| ==> updates[i].op < |ops|
    requires AllOrNothing(updates, durable, ops)
    ensures AllOrNothing(updates + [u], durable, ops[p := op])
  {
  }

  lemma AppendKeeps(cfg: Config, s: State, p: nat, b: int, data: Block)
    requires Inv(cfg, s) && Enabled(cfg, s, Append(p, b, data)) && Roomy(cfg, s, Append(p, b, data))
    ensures Inv(cfg, Apply(cfg, s, Append(p, b, data)))
  {
    AppendStates(cfg, s, p, b, data);
    var s' := Apply(cfg, s, Append(p, b, data));
    AppendAtomic(s.updates, s.durable, s.ops, p, Update(p, b, data), s'.ops[p]);
    assert SameHome(cfg, s'.view, CurrentState(cfg, s'));
    assert Elsewhere(cfg, s'.view, s'.lh, DurableState(cfg, s'));
    assert LogCached(cfg, s'.view, s'.disk);
  }

  /* The append keeps the log sound exactly if its entry still lies in the log on disk. */
  lemma AppendExact(cfg: Config, s: State, p: nat, b: int, data: Block)
    requires Inv(cfg, s) && Enabled(cfg, s, Append(p, b, data))
    ensures Inv(cfg, Apply(cfg, s, Append(p, b, data))) <==> Roomy(cfg, s, Append(p, b, data))
  {
    if Roomy(cfg, s, Append(p, b, data)) {
      AppendKeeps(cfg, s, p, b, data);
    } else {
      assert !LogList(cfg, Absorb(s.lh, b));
    }
  }

  lemma EndAtomic(updates: seq<Update>, durable: nat, ops: seq<Op>, p: nat)
    requires p < |ops| && ops[p].status == Active && durable <= |updates|
    requires forall i :: 0 <= i < |updates| ==> updates[i].op < |ops|
    requires AllOrNothing(updates, durable, ops)
    ensures AllOrNothing(updates, durable, ops[p := ops[p].(status := Ended)])
  {
  }

  lemma EndKeeps(cfg: Config, s: State, p: nat)
    requires Inv(cfg, s) && Enabled(cfg, s, End(p))
    ensures Inv(cfg, Apply(cfg, s, End(p)))
  {
    ShapeKeeps(cfg, s, End(p));
    EndAtomic(s.updates, s.durable, s.ops, p);
    var s' := Apply(cfg, s, End(p));
    assert s'.disk == s.disk && s'.view == s.view && s'.lh == s.lh && s'.base == s.base;
  }

  lemma CrashKeeps(cfg: Config, s: State)
    requires Inv(cfg, s)
    ensures KeepsInv(cfg, s, Crash)
  {
    hide Replay;
    hide RecoversTo;
    ShapeKeeps(cfg, s, Crash);
    assert s.updates[..s.durable][..s.durable] == s.updates[..s.durable];
  }

  lemma ReadHeadKeeps(cfg: Config, s: State)
    requires Inv(cfg, s) && Enabled(cfg, s, ReadHead)
    ensures Inv(cfg, Apply(cfg, s, ReadHead))
  {
  }

  lemma FinishKeeps(cfg: Config, s: State)
    requires Inv(cfg, s) && Enabled(cfg, s, Finish)
    ensures Inv(cfg, Apply(cfg, s, Finish))
  {
  }

  lemma WriteLogKeeps(cfg: Config, s: State)
    requires Inv(cfg, s) && s.phase.WritingLog? && s.phase.tail < |s.lh|
    ensures Inv(cfg, Apply(cfg, s, DiskWrite))
  {
    hide UpdatesOk;
    hide PendingOk;
    hide CountActive;
    hide AllOrNothing;
    var t := s.phase.tail;
    LogBlockWrite(cfg, s.disk, DurableState(cfg, s), s.lh, CurrentState(cfg, s), t, s.view[s.lh[t]]);
  }

  lemma WriteHeadShape(cfg: Config, s: State)
    requires Inv(cfg, s) && s.phase.WritingLog? && s.phase.tail == |s.lh|
    ensures var s' := Apply(cfg, s, DiskWrite);
            && Shape(cfg, s')
            && HeaderOk(cfg, s'.disk[cfg.start]) && HeaderOf(s'.disk[cfg.start]) == s.lh
            && DurableState(cfg, s') == CurrentState(cfg, s') == CurrentState(cfg, s)
            && RecoversTo(cfg, s'.disk, DurableState(cfg, s'))
  {
    var s' := Apply(cfg, s, DiskWrite);
    assert s'.disk == s.disk[cfg.start := PutHeader(s.disk[cfg.start], s.lh)] by {
      assert !cfg.Home(cfg.start);
    }
    assert Elsewhere(cfg, CurrentState(cfg, s), s.lh, DurableState(cfg, s));
    HeaderWrite(cfg, s.disk, DurableState(cfg, s), s.lh, CurrentState(cfg, s));
    hide RecoversTo;
    hide HeaderOf;
    hide LogHolds;
    assert s.updates[..|s.updates|] == s.updates;
  }

  /* The commit point: one block write makes the whole transaction durable. */
  lemma WriteHeadKeeps(cfg: Config, s: State)
    requires Inv(cfg, s) && s.phase.WritingLog? && s.phase.tail == |s.lh|
    ensures Inv(cfg, Apply(cfg, s, DiskWrite))
  {
    hide RecoversTo;
    hide LogHolds;
    hide LogList;
    hide HeaderOk;
    hide HeaderOf;
    hide Replay;
    WriteHeadShape(cfg, s);
    var s' := Apply(cfg, s, DiskWrite);
    assert AllOrNothing(s'.updates, s'.durable, s'.ops) by {
      NoneOutstanding(s.ops);
    }
    assert s'.updates == s.updates && s'.lh == s.lh && s'.outstanding == s.outstanding;
    assert !cfg.Home(cfg.start);
    assert LogCached(cfg, s'.view, s'.disk);
  }

  lemma InstallShape(cfg: Config, s: State)
    requires Inv(cfg, s) && s.phase.Installing? && s.phase.tail < |s.lh| && Shape(cfg, s) && Enabled(cfg, s, DiskWrite)
    requires cfg.start + 1 + s.phase.tail < |s.disk| == |s.view| && 0 <= s.lh[s.phase.tail] < |s.disk|
    ensures var s' := Apply(cfg, s, DiskWrite);
            && s'.disk == s.disk[s.lh[s.phase.tail] := s.disk[cfg.start + 1 + s.phase.tail]]
            && s'.view == s.view
  {
    hide HeaderShape;
    hide UpdatesOk;
    hide PendingOk;
    hide CountActive;
    hide AllOrNothing;
    hide Replay;
    var t, a := s.phase.tail, s.lh[s.phase.tail];
    assert s.updates[..|s.updates|] == s.updates;
    assert !cfg.Home(cfg.start + t + 1);
    assert s.view[a] == s.disk[cfg.start + 1 + t] == s.view[cfg.start + t + 1];
  }

  ghost predicate KeepsInv(cfg: Config, s: State, step: Step) {
    Shape(cfg, s) && Enabled(cfg, s, step) && Inv(cfg, Apply(cfg, s, step))
  }

  lemma InstallKeeps(cfg: Config, s: State)
    requires Inv(cfg, s) && s.phase.Installing? && s.phase.tail < |s.lh|
    ensures KeepsInv(cfg, s, DiskWrite)
  {
    hide RecoversTo;
    hide LogHolds;
    hide HeaderOf;
    hide Replay;
    InstallShape(cfg, s);
    InstallWrite(cfg, s.disk, DurableState(cfg, s), s.phase.tail);
    var s' := Apply(cfg, s, DiskWrite);
    assert Shape(cfg, s');
    assert LogCached(cfg, s'.view, s'.disk) by {
      assert cfg.Home(s.lh[s.phase.tail]);
    }
  }

  lemma RecoverKeeps(cfg: Config, s: State)
    requires Inv(cfg, s) && s.phase.Recovering? && s.phase.tail < |s.lh|
    ensures Inv(cfg, Apply(cfg, s, DiskWrite))
  {
    var t, a := s.phase.tail, s.lh[s.phase.tail];
    var s' := Apply(cfg, s, DiskWrite);
    InstallWrite(cfg, s.disk, DurableState(cfg, s), t);
    assert s'.view == s'.disk == s.disk[a := s.disk[cfg.start + 1 + t]];
    assert s'.updates == s.updates && s'.ops == s.ops && s'.lh == s.lh && s'.base == s.base;
  }

  lemma ClearHeadKeeps(cfg: Config, s: State)
    requires Inv(cfg, s) && (s.phase.Installing? || s.phase.Recovering?) && s.phase.tail == |s.lh|
    ensures KeepsInv(cfg, s, DiskWrite)
  {
    hide Replay;
    hide PendingOk;
    hide CountActive;
    assert s.updates[..|s.updates|] == s.updates;
    ClearWrite(cfg, s.disk, DurableState(cfg, s));
    ShapeKeeps(cfg, s, DiskWrite);
  }

  lemma StepKeeps(cfg: Config, s: State, step: Step)
    requires Inv(cfg, s) && Enabled(cfg, s, step) && Roomy(cfg, s, step)
    ensures Inv(cfg, Apply(cfg, s, step))
  {
    match step
    case Begin => BeginKeeps(cfg, s);
    case Check(p, b) => CheckKeeps(cfg, s, p, b);
    case Append(p, b, data) => AppendKeeps(cfg, s, p, b, data);
    case End(p) => EndKeeps(cfg, s, p);
    case ReadHead => ReadHeadKeeps(cfg, s);
    case Finish => FinishKeeps(cfg, s);
    case Crash => CrashKeeps(cfg, s);
    case DiskWrite =>
      if s.phase.tail == |s.lh| {
        if s.phase.WritingLog? { WriteHeadKeeps(cfg, s); } else { ClearHeadKeeps(cfg, s); }
      } else if s.phase.WritingLog? { WriteLogKeeps(cfg, s); }
      else if s.phase.Installing? { InstallKeeps(cfg, s); } else { RecoverKeeps(cfg, s); }
  }

  // ----- whole runs

  /* The state after a run, or None when some step was not possible.  The test of `Shape`
     only makes the next step well defined: by RunShape it never fails. */
  function Exec(cfg: Config, s: State, steps: seq<Step>): (r: Option<State>) {
    if steps == [] then Some(s)
    else
      var last := steps[|steps| - 1];
      match Exec(cfg, s, steps[..|steps| - 1])
      case None => None
      case Some(m) => if Shape(cfg, m) && Enabled(cfg, m, last) then Some(Apply(cfg, m, last)) else None
  }

  lemma {:induction false} RunShape(cfg: Config, s: State, steps: seq<Step>)
    requires Shape(cfg, s) && Exec(cfg, s, steps).Some?
    ensures Shape(cfg, Exec(cfg, s, steps).value)
  {
    hide Shape;
    if steps != [] {
      RunShape(cfg, s, steps[..|steps| - 1]);
      ShapeKeeps(cfg, Exec(cfg, s, steps[..|steps| - 1]).value, steps[|steps| - 1]);
    }
  }

  /* A run that never appends a block for which the log on disk has no room. */
  predicate RoomyRun(cfg: Config, s: State, steps: seq<Step>) {
    steps != [] ==>
      var init := steps[..|steps| - 1];
      && RoomyRun(cfg, s, init)
      && Exec(cfg, s, init).Some?
      && Roomy(cfg, Exec(cfg, s, init).value, steps[|steps| - 1])
  }

  lemma {:induction false} RunKeeps(cfg: Config, s: State, steps: seq<Step>)
    requires Inv(cfg, s) && Exec(cfg, s, steps).Some? && RoomyRun(cfg, s, steps)
    ensures Inv(cfg, Exec(cfg, s, steps).value)
  {
    hide Inv;
    if steps != [] {
      RunKeeps(cfg, s, steps[..|steps| - 1]);
      StepKeeps(cfg, Exec(cfg, s, steps[..|steps| - 1]).value, steps[|steps| - 1]);
    }
  }

  predicate DiskOk(cfg: Config, d: seq<Block>) {
    cfg.Valid() && |d| == cfg.nblocks && HeaderOk(cfg, d[cfg.start])
  }

  /* One block of the disk, read through the list h of logged blocks. */
  ghost function LogicalBlock(cfg: Config, d: seq<Block>, h: seq<int>, b: int): Block
    requires cfg.Valid() && |d| == cfg.nblocks && LogList(cfg, h) && 0 <= b < |d|
  {
    if exists i :: 0 <= i < |h| && h[i] == b
    then var i :| 0 <= i < |h| && h[i] == b; d[cfg.start + 1 + i]
    else d[b]
  }

  /* The logical contents of a disk, read through its log header. */
  ghost function Logical(cfg: Config, d: seq<Block>): (r: seq<Block>)
    requires DiskOk(cfg, d)
    ensures |r| == |d|
  {
    seq(|d|, b requires 0 <= b < |d| => LogicalBlock(cfg, d, HeaderOf(d[cfg.start]), b))
  }

  lemma LogicalRecovers(cfg: Config, d: seq<Block>)
    requires DiskOk(cfg, d)
    ensures RecoversTo(cfg, d, Logical(cfg, d))
  {
    hide HeaderOf;
    var h := HeaderOf(d[cfg.start]);
    forall i | 0 <= i < |h| ensures d[cfg.start + 1 + i] == Logical(cfg, d)[h[i]] {
      assert LogicalBlock(cfg, d, h, h[i]) == d[cfg.start + 1 + i];
    }
    forall b {:trigger cfg.Home(b)} | cfg.Home(b) && b !in h ensures d[b] == Logical(cfg, d)[b] {
      assert LogicalBlock(cfg, d, h, b) == d[b];
    }
  }

  /* Power-on with an arbitrary disk whose log header is well formed. */
  ghost function Boot(cfg: Config, d: seq<Block>): (s: State)
    requires DiskOk(cfg, d)
  {
    State(d, d, [], 0, Down, [], Logical(cfg, d), [], 0)
  }

  lemma BootKeeps(cfg: Config, d: seq<Block>)
    requires DiskOk(cfg, d)
    ensures Inv(cfg, Boot(cfg, d))
  {
    LogicalRecovers(cfg, d);
  }

  lemma {:induction false} BaseFixed(cfg: Config, s: State, steps: seq<Step>)
    requires Exec(cfg, s, steps).Some?
    ensures Exec(cfg, s, steps).value.base == s.base
  {
    hide Shape;
    if steps != [] {
      BaseFixed(cfg, s, steps[..|steps| - 1]);
    }
  }

  predicate RecoveryStep(step: Step) {
    step.Crash? || step.ReadHead? || step.DiskWrite?
  }

  predicate AfterCrash(phase: Phase) {
    phase.Down? || phase.Recovering? || phase == Running
  }

  /* After a crash, recovery that is itself cut short by any number of further crashes
     still ends with every home block holding the last committed contents. */
  lemma {:induction false} RecoveryRestores(cfg: Config, s: State, steps: seq<Step>, s': State)
    requires Inv(cfg, s)
    requires forall i :: 0 <= i < |steps| ==> RecoveryStep(steps[i])
    requires Exec(cfg, s, [Crash] + steps) == Some(s')
    ensures Inv(cfg, s') && AfterCrash(s'.phase)
    ensures DurableState(cfg, s') == DurableState(cfg, s)
    ensures s'.phase == Running ==> SameHome(cfg, s'.disk, DurableState(cfg, s))
  {
    hide Inv;
    hide Apply;
    hide SameHome;
    hide DurableState;
    if steps == [] {
      assert ([Crash] + steps)[..0] == [];
      RecoveryStepKeepsDurable(cfg, s, Crash);
    } else {
      var init, last := steps[..|steps| - 1], steps[|steps| - 1];
      assert ([Crash] + steps)[..|steps|] == [Crash] + init;
      var m := Exec(cfg, s, [Crash] + init).value;
      RecoveryRestores(cfg, s, init, m);
      RecoveryStepKeepsDurable(cfg, m, last);
    }
  }

  lemma RecoveryStepKeepsDurable(cfg: Config, m: State, step: Step)
    requires Inv(cfg, m) && RecoveryStep(step) && Enabled(cfg, m, step)
    requires AfterCrash(m.phase) || step.Crash?
    ensures var s' := Apply(cfg, m, step);
            && Inv(cfg, s') && AfterCrash(s'.phase)
            && DurableState(cfg, s') == DurableState(cfg, m)
            && (s'.phase == Running ==> SameHome(cfg, s'.disk, DurableState(cfg, s')))
  {
    StepKeeps(cfg, m, step);
    assert m.updates[..m.durable][..m.durable] == m.updates[..m.durable];
  }

  /* While no commit is under way the home blocks themselves are the committed state. */
  lemma QuietDisk(cfg: Config, s: State)
    requires Inv(cfg, s) && s.phase == Running
    ensures SameHome(cfg, s.disk, DurableState(cfg, s))
  {
  }

  /* A finished commit has made every update durable. */
  lemma AllDurable(cfg: Config, s: State)
    requires Inv(cfg, s) && s.phase == Committed
    ensures s.lh == [] && s.durable == |s.updates|
  {
  }

  /* What is durable stays durable: the durable updates only ever grow at the end. */
  lemma {:induction false} DurableGrows(cfg: Config, s: State, steps: seq<Step>, s': State)
    requires Shape(cfg, s) && Exec(cfg, s, steps) == Some(s')
    ensures s'.durable <= |s'.updates| && s.updates[..s.durable] <= s'.updates[..s'.durable]
  {
    if steps != [] {
      var m := Exec(cfg, s, steps[..|steps| - 1]).value;
      DurableGrows(cfg, s, steps[..|steps| - 1], m);
      RunShape(cfg, s, steps[..|steps| - 1]);
      StepGrows(cfg, m, steps[|steps| - 1]);
    }
  }

  lemma StepGrows(cfg: Config, m: State, step: Step)
    requires Shape(cfg, m) && Enabled(cfg, m, step)
    ensures var s' := Apply(cfg, m, step);
            && s'.durable <= |s'.updates|
            && m.updates[..m.durable] <= s'.updates[..s'.durable]
  {
    if step.DiskWrite? {
      var s' := Apply(cfg, m, step);
      assert s'.updates == m.updates && m.durable <= s'.durable;
    }
  }

  // ----- log space

  /* Log blocks the active operations may still claim. */
  function Unused(cfg: Config, ops: seq<Op>): int {
    if ops == [] then 0
    else
      var op := ops[|ops| - 1];
      Unused(cfg, ops[..|ops| - 1]) + if op.status == Active then cfg.maxop - |op.blocks| else 0
  }

  /* The operation stays within the number of distinct blocks it may log. */
  predicate WithinBudget(cfg: Config, s: State, step: Step) {
    step.Append? && step.p < |s.ops| ==> |s.ops[step.p].blocks + {step.b}| <= cfg.maxop
  }

  /* The room promised by begin_op is really there. */
  ghost predicate Reserved(cfg: Config, s: State) {
    && |s.lh| + Unused(cfg, s.ops) <= cfg.logsize
    && (forall p :: 0 <= p < |s.ops| && s.ops[p].status == Active ==>
          |s.ops[p].blocks| <= cfg.maxop && forall b :: b in s.ops[p].blocks ==> b in s.lh)
  }

  lemma UnusedUpdate(cfg: Config, ops: seq<Op>, p: nat, op: Op)
    requires p < |ops|
    ensures Unused(cfg, ops[p := op]) ==
            Unused(cfg, ops) - (if ops[p].status == Active then cfg.maxop - |ops[p].blocks| else 0)
                             + (if op.status == Active then cfg.maxop - |op.blocks| else 0)
  {
    var n := |ops| - 1;
    if p < n {
      UnusedUpdate(cfg, ops[..n], p, op);
      assert ops[p := op][..n] == ops[..n][p := op];
    } else {
      assert ops[p := op][..n] == ops[..n];
    }
  }

  lemma UnusedBound(cfg: Config, ops: seq<Op>)
    ensures Unused(cfg, ops) <= CountActive(ops) * cfg.maxop
  {
    if ops != [] {
      UnusedBound(cfg, ops[..|ops| - 1]);
      assert (CountActive(ops[..|ops| - 1]) + 1) * cfg.maxop == CountActive(ops[..|ops| - 1]) * cfg.maxop + cfg.maxop;
    }
  }

  lemma UnusedPositive(cfg: Config, ops: seq<Op>)
    requires forall p :: 0 <= p < |ops| && ops[p].status == Active ==> |ops[p].blocks| <= cfg.maxop
    ensures Unused(cfg, ops) >= 0
    ensures forall p :: 0 <= p < |ops| && ops[p].status == Active ==> cfg.maxop - |ops[p].blocks| <= Unused(cfg, ops)
  {
  }

  lemma UnusedNone(cfg: Config, ops: seq<Op>)
    requires CountActive(ops) == 0
    ensures Unused(cfg, ops) == 0
  {
    NoneOutstanding(ops);
    if ops != [] {
      NoneActive(ops[..|ops| - 1]);
      UnusedNone(cfg, ops[..|ops| - 1]);
    }
  }

  lemma CardAdd(bs: set<int>, b: int)
    ensures |bs + {b}| == |bs| + if b in bs then 0 else 1
  {
    if b in bs {
      assert bs + {b} == bs;
    }
  }

  lemma BeginReserves(cfg: Config, s: State)
    requires Shape(cfg, s) && Enabled(cfg, s, Begin) && Reserved(cfg, s)
    ensures Reserved(cfg, Apply(cfg, s, Begin))
  {
    assert (s.ops + [Op(Active, {}, None)])[..|s.ops|] == s.ops;
    UnusedBound(cfg, s.ops);
    assert (s.outstanding + 1) * cfg.maxop == s.outstanding * cfg.maxop + cfg.maxop;
  }

  lemma CheckReserves(cfg: Config, s: State, p: nat, b: int)
    requires Shape(cfg, s) && Enabled(cfg, s, Check(p, b)) && Reserved(cfg, s)
    ensures Reserved(cfg, Apply(cfg, s, Check(p, b)))
  {
    UnusedUpdate(cfg, s.ops, p, s.ops[p].(pending := Some(b)));
  }

  lemma AppendReserves(cfg: Config, s: State, p: nat, b: int, data: Block)
    requires Shape(cfg, s) && Enabled(cfg, s, Append(p, b, data)) && Reserved(cfg, s)
    requires |s.ops[p].blocks + {b}| <= cfg.maxop
    ensures Reserved(cfg, Apply(cfg, s, Append(p, b, data)))
  {
    var op := s.ops[p].(blocks := s.ops[p].blocks + {b}, pending := None);
    UnusedUpdate(cfg, s.ops, p, op);
    CardAdd(s.ops[p].blocks, b);
  }

  lemma EndReserves(cfg: Config, s: State, p: nat)
    requires Shape(cfg, s) && Enabled(cfg, s, End(p)) && Reserved(cfg, s)
    ensures Reserved(cfg, Apply(cfg, s, End(p)))
  {
    UnusedUpdate(cfg, s.ops, p, s.ops[p].(status := Ended));
  }

  lemma StepReserves(cfg: Config, s: State, step: Step)
    requires Shape(cfg, s) && Enabled(cfg, s, step) && WithinBudget(cfg, s, step)
    requires s.phase == Running ==> Reserved(cfg, s)
    ensures var s' := Apply(cfg, s, step); s'.phase == Running ==> Reserved(cfg, s')
  {
    var s' := Apply(cfg, s, step);
    match step
    case Begin => BeginReserves(cfg, s);
    case Check(p, b) => CheckReserves(cfg, s, p, b);
    case Append(p, b, data) => AppendReserves(cfg, s, p, b, data);
    case End(p) => EndReserves(cfg, s, p);
    case Crash =>
    case ReadHead =>
    case _ =>
      if s'.phase == Running {
        assert s'.ops == s.ops;
        UnusedNone(cfg, s.ops);
        NoneOutstanding(s.ops);
      }
  }

  /* A run all of whose operations stay within their budget. */
  predicate BudgetedRun(cfg: Config, s: State, steps: seq<Step>) {
    steps != [] ==>
      var init := steps[..|steps| - 1];
      && BudgetedRun(cfg, s, init)
      && Exec(cfg, s, init).Some?
      && WithinBudget(cfg, Exec(cfg, s, init).value, steps[|steps| - 1])
  }

  lemma {:induction false} RunReserves(cfg: Config, s: State, steps: seq<Step>, s': State)
    requires Shape(cfg, s) && s.phase == Down
    requires Exec(cfg, s, steps) == Some(s') && BudgetedRun(cfg, s, steps)
    ensures Shape(cfg, s') && (s'.phase == Running ==> Reserved(cfg, s'))
  {
    hide Shape;
    hide Reserved;
    RunShape(cfg, s, steps);
    if steps != [] {
      var init := steps[..|steps| - 1];
      var m := Exec(cfg, s, init).value;
      RunReserves(cfg, s, init, m);
      StepReserves(cfg, m, steps[|steps| - 1]);
    }
  }

  /* An operation within its budget finds room for a block that is not in the log yet. */
  lemma RoomLeft(cfg: Config, s: State, p: nat, b: int)
    requires Reserved(cfg, s) && p < |s.ops| && s.ops[p].status == Active && b !in s.lh
    requires |s.ops[p].blocks + {b}| <= cfg.maxop
    ensures |s.lh| < cfg.logsize
  {
    UnusedPositive(cfg, s.ops);
    CardAdd(s.ops[p].blocks, b);
  }

  lemma BootShape(cfg: Config, d: seq<Block>)
    requires DiskOk(cfg, d)
    ensures Shape(cfg, Boot(cfg, d))
  {
  }

  /* begin_op's admission test keeps its promise over every run: the log never needs more
     than logsize blocks, and an operation within its budget always finds room in the array
     for a block that is not in the log yet, however many others passed the test of
     log_write before it. */
  lemma LogReservation(cfg: Config, d: seq<Block>, steps: seq<Step>, s: State)
    requires DiskOk(cfg, d)
    requires Exec(cfg, Boot(cfg, d), steps) == Some(s) && BudgetedRun(cfg, Boot(cfg, d), steps)
    requires s.phase == Running
    ensures 0 <= Unused(cfg, s.ops) && |s.lh| + Unused(cfg, s.ops) <= cfg.logsize
    ensures forall p: nat, b ::
              (&& p < |s.ops| && s.ops[p].status == Active && b !in s.lh
               && |s.ops[p].blocks + {b}| <= cfg.maxop) ==> |s.lh| < cfg.logsize
  {
    BootShape(cfg, d);
    hide Shape;
    RunReserves(cfg, Boot(cfg, d), steps, s);
    hide Boot;
    hide Exec;
    hide BudgetedRun;
    UnusedPositive(cfg, s.ops);
    forall p: nat, b | && p < |s.ops| && s.ops[p].status == Active && b !in s.lh
                       && |s.ops[p].blocks + {b}| <= cfg.maxop
      ensures |s.lh| < cfg.logsize
    {
      RoomLeft(cfg, s, p, b);
    }
  }

  // ----- crash atomicity

  /* With more than logsize blocks on disk, operations within their budget always find the
     room they were promised, whoever else passed the test at the same time. */
  lemma {:induction false} BudgetedRoomy(cfg: Config, s: State, steps: seq<Step>)
    requires Shape(cfg, s) && s.phase == Down && cfg.size > cfg.logsize
    requires Exec(cfg, s, steps).Some? && BudgetedRun(cfg, s, steps)
    ensures RoomyRun(cfg, s, steps)
  {
    hide Shape;
    hide Reserved;
    if steps != [] {
      var init, last := steps[..|steps| - 1], steps[|steps| - 1];
      var m := Exec(cfg, s, init).value;
      BudgetedRoomy(cfg, s, init);
      RunReserves(cfg, s, init, m);
      if last.Append? && last.b !in m.lh {
        RoomLeft(cfg, m, last.p, last.b);
      }
    }
  }

  /* The disk stands for the state of the last commit record that reached it, and that
     state contains each operation entirely or not at all. */
  ghost predicate Atomic(cfg: Config, d: seq<Block>, s: State) {
    && DiskOk(cfg, d) && Shape(cfg, s) && HeaderOk(cfg, s.disk[cfg.start])
    && RecoversTo(cfg, s.disk, Replay(Logical(cfg, d), s.updates[..s.durable]))
    && AllOrNothing(s.updates, s.durable, s.ops)
  }

  lemma RoomyAtomic(cfg: Config, d: seq<Block>, steps: seq<Step>, s: State)
    requires DiskOk(cfg, d)
    requires Exec(cfg, Boot(cfg, d), steps) == Some(s) && RoomyRun(cfg, Boot(cfg, d), steps)
    ensures Inv(cfg, s) && Atomic(cfg, d, s)
  {
    BootKeeps(cfg, d);
    RunKeeps(cfg, Boot(cfg, d), steps);
    BaseFixed(cfg, Boot(cfg, d), steps);
  }

  /* Crash atomicity: whatever operations ran within their budgets, however their steps
     interleaved and wherever crashes fell.  LogSpace shows that the size of the log is
     needed. */
  lemma CrashAtomicity(cfg: Config, d: seq<Block>, steps: seq<Step>, s: State)
    requires DiskOk(cfg, d) && cfg.size > cfg.logsize
    requires Exec(cfg, Boot(cfg, d), steps) == Some(s) && BudgetedRun(cfg, Boot(cfg, d), steps)
    ensures Inv(cfg, s) && Atomic(cfg, d, s)
  {
    BootShape(cfg, d);
    BudgetedRoomy(cfg, Boot(cfg, d), steps);
    RoomyAtomic(cfg, d, steps, s);
  }
}
