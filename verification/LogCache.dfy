/**
The log over the buffer cache.  The code of log.c reads and writes blocks through bread,
bwrite and brelse; here it is shown that the log's `view` is what the cache returns, that
the buffers pinned by B_DIRTY are exactly the blocks of the list still to be installed,
and when a commit finds a buffer for each block it reads.
*/
module LogCache {
  import opened WriteAheadLog
  import opened LogCode
  import BC = BufferCache

  type Key = BC.Key
  type Buf = BC.Buf

  // ----- pinned buffers

  /* The blocks with a pinned buffer. */
  ghost function Dirty(bufs: seq<Buf>): set<Key> {
    set i | 0 <= i < |bufs| && bufs[i].dirty :: BC.KeyOf(bufs[i])
  }

  ghost function Pins(dev: nat, bs: seq<int>): set<Key> {
    set i | 0 <= i < |bs| && bs[i] >= 0 :: (dev, bs[i])
  }

  ghost predicate Quiet(bufs: seq<Buf>) {
    forall k :: 0 <= k < |bufs| ==> bufs[k].refcnt == 0
  }

  ghost predicate HasSpare(bufs: seq<Buf>) {
    exists k :: 0 <= k < |bufs| && BC.Evictable(bufs[k])
  }

  ghost predicate AllSpare(bufs: seq<Buf>) {
    forall k :: 0 <= k < |bufs| ==> BC.Evictable(bufs[k])
  }

  lemma ReadDirty(b0: seq<Buf>, b1: seq<Buf>, k: nat)
    requires |b1| == |b0| && k < |b0| && forall j :: 0 <= j < |b0| && j != k ==> b1[j] == b0[j]
    requires if BC.KeyOf(b1[k]) == BC.KeyOf(b0[k]) then b1[k].dirty == b0[k].dirty else !b1[k].dirty && !b0[k].dirty
    ensures Dirty(b1) == Dirty(b0)
  {
    forall key ensures key in Dirty(b1) <==> key in Dirty(b0) {
      if key in Dirty(b1) {
        var i :| 0 <= i < |b1| && b1[i].dirty && BC.KeyOf(b1[i]) == key;
        assert b0[i].dirty && BC.KeyOf(b0[i]) == key;
      }
      if key in Dirty(b0) {
        var i :| 0 <= i < |b0| && b0[i].dirty && BC.KeyOf(b0[i]) == key;
        assert b1[i].dirty && BC.KeyOf(b1[i]) == key;
      }
    }
  }

  lemma PinDirty(bufs: seq<Buf>, k: nat, d: Block)
    requires k < |bufs|
    ensures Dirty(bufs[k := bufs[k].(data := d, dirty := true)]) == Dirty(bufs) + {BC.KeyOf(bufs[k])}
  {
    var b1 := bufs[k := bufs[k].(data := d, dirty := true)];
    assert b1[k].dirty && BC.KeyOf(b1[k]) == BC.KeyOf(bufs[k]);
    forall key | key in Dirty(bufs) ensures key in Dirty(b1) {
      var i :| 0 <= i < |bufs| && bufs[i].dirty && BC.KeyOf(bufs[i]) == key;
      assert b1[i].dirty && BC.KeyOf(b1[i]) == key;
    }
  }

  /* Writing a buffer to the disk takes its pin away: no other buffer has that block. */
  lemma WriteDirty(bufs: seq<Buf>, list: seq<nat>, k: nat, d: Block)
    requires BC.Whole(list, |bufs|) && BC.LiveFirst(bufs, list) && k < |bufs| && BC.Live(bufs[k])
    requires forall i :: 0 <= i < |bufs| && bufs[i].dirty ==> bufs[i].valid
    ensures Dirty(bufs[k := bufs[k].(data := d, dirty := false)]) == Dirty(bufs) - {BC.KeyOf(bufs[k])}
  {
    hide BC.LiveFirst;
    hide BC.Whole;
    var b1 := bufs[k := bufs[k].(data := d, dirty := false)];
    forall i | 0 <= i < |bufs| && i != k && bufs[i].dirty ensures BC.KeyOf(bufs[i]) != BC.KeyOf(bufs[k]) {
      if BC.KeyOf(bufs[i]) == BC.KeyOf(bufs[k]) { BC.OneBuffer(bufs, list, i, k); }
    }
    forall key | key in Dirty(bufs) && key != BC.KeyOf(bufs[k]) ensures key in Dirty(b1) {
      var i :| 0 <= i < |bufs| && bufs[i].dirty && BC.KeyOf(bufs[i]) == key;
      assert b1[i].dirty && BC.KeyOf(b1[i]) == key;
    }
  }

  /* Block key is in buffer k, read and held. */
  ghost predicate Got(bufs: seq<Buf>, truth: map<Key, Block>, k: nat, key: Key) {
    && k < |bufs| && BC.KeyOf(bufs[k]) == key && bufs[k].valid && bufs[k].refcnt > 0
    && key in truth && bufs[k].data == truth[key]
  }

  /* Every buffer has as many references as before, and the blocks pinned are the same but
     for key. */
  ghost predicate Settled(b0: seq<Buf>, b1: seq<Buf>, key: Key) {
    && |b1| == |b0| && (forall k :: 0 <= k < |b0| ==> b1[k].refcnt == b0[k].refcnt)
    && Dirty(b1) == Dirty(b0) - {key}
  }

  /* Two blocks read one after the other, as write_log and install_trans do. */
  method ReadTwo(c: BC.Bcache, dev: nat, a: nat, b: nat) returns (k1: nat, k2: nat, ok: bool)
    requires c.Valid() && a != b
    modifies c`bufs, c`disk
    ensures c.Valid() && c.disk == old(c.disk) && |c.bufs| == |old(c.bufs)|
    ensures ok ==> Got(c.bufs, c.truth, k1, (dev, a)) && Got(c.bufs, c.truth, k2, (dev, b)) && k1 != k2
    ensures ok ==> Dirty(c.bufs) == Dirty(old(c.bufs))
    ensures ok ==> forall k :: 0 <= k < |c.bufs| ==>
              c.bufs[k].refcnt == old(c.bufs)[k].refcnt + if k == k1 || k == k2 then 1 else 0
    ensures ok ==> HasSpare(old(c.bufs)) || exists j :: 0 <= j < |old(c.bufs)| && BC.KeyOf(old(c.bufs)[j]) == (dev, a)
    ensures (dev, a) in c.disk && (dev, b) in c.disk && HasSpare(old(c.bufs)) && (dev, b) in Dirty(old(c.bufs)) ==> ok
    ensures (dev, a) in c.disk && (dev, b) in c.disk && AllSpare(old(c.bufs)) && |c.bufs| >= 2 ==> ok
  {
    hide BC.Bcache.Valid;
    ghost var b0 := c.bufs;
    assert AllSpare(b0) && |b0| >= 2 ==> BC.Evictable(b0[0]);
    k1, ok := c.Bread(dev, a);
    k2 := 0;
    if !ok {
      return;
    }
    ghost var b1 := c.bufs;
    assert |b1| >= 2 ==> b1[1 - if k1 == 0 then 0 else 1] == b0[1 - if k1 == 0 then 0 else 1];
    ReadDirty(b0, b1, k1);
    k2, ok := c.Bread(dev, b);
    if ok {
      ReadDirty(b1, c.bufs, k2);
    }
  }

  /* The two releases of a round. */
  method ReleaseTwo(c: BC.Bcache, k: nat, k': nat)
    requires c.Valid() && k < |c.bufs| && c.bufs[k].refcnt > 0 && c.bufs[k].valid
    requires k' < |c.bufs| && c.bufs[k'].refcnt > 0 && c.bufs[k'].valid && k != k'
    modifies c`bufs, c`next, c`prev, c`list, c`stamps, c`clock
    ensures c.Valid() && |c.bufs| == |old(c.bufs)| && Dirty(c.bufs) == Dirty(old(c.bufs))
    ensures forall j :: 0 <= j < |c.bufs| ==>
              c.bufs[j].refcnt == old(c.bufs)[j].refcnt - if j == k || j == k' then 1 else 0
  {
    hide BC.Bcache.Valid;
    ghost var b0 := c.bufs;
    c.Brelse(k);
    ReadDirty(b0, c.bufs, k);
    ghost var b1 := c.bufs;
    c.Brelse(k');
    ReadDirty(b1, c.bufs, k');
  }

  /* bwrite, and what it does to the pins. */
  method WriteBlock(c: BC.Bcache, k: nat, d: Block)
    requires c.Valid() && k < |c.bufs| && c.bufs[k].refcnt > 0 && c.bufs[k].valid
    modifies c`bufs, c`truth, c`disk
    ensures c.Valid() && c.bufs == old(c.bufs)[k := old(c.bufs)[k].(data := d, dirty := false)]
    ensures c.truth == old(c.truth)[BC.KeyOf(c.bufs[k]) := d] && c.disk == old(c.disk)[BC.KeyOf(c.bufs[k]) := d]
    ensures Dirty(c.bufs) == Dirty(old(c.bufs)) - {BC.KeyOf(c.bufs[k])}
  {
    WriteDirty(c.bufs, c.list, k, d);
    hide BC.Bcache.Valid;
    var ok := c.Bwrite(k, d);
  }

  /* One round of write_log: block b is copied to block a of the log. */
  method CopyToLog(c: BC.Bcache, dev: nat, a: nat, b: nat) returns (ok: bool)
    requires c.Valid() && a != b
    modifies c
    ensures c.Valid() && (!ok ==> c.truth == old(c.truth) && c.disk == old(c.disk))
    ensures ok ==> (dev, b) in old(c.truth)
    ensures ok ==> c.truth == old(c.truth)[(dev, a) := old(c.truth)[(dev, b)]]
    ensures ok ==> c.disk == old(c.disk)[(dev, a) := old(c.truth)[(dev, b)]]
    ensures ok ==> Settled(old(c.bufs), c.bufs, (dev, a))
    ensures ok ==> HasSpare(old(c.bufs)) || exists j :: 0 <= j < |old(c.bufs)| && BC.KeyOf(old(c.bufs)[j]) == (dev, a)
    ensures old((dev, a) in c.disk && (dev, b) in c.disk && HasSpare(c.bufs) && (dev, b) in Dirty(c.bufs)) ==> ok
  {
    hide BC.Bcache.Valid;
    hide Dirty;
    hide HasSpare;
    var to, from;
    to, from, ok := ReadTwo(c, dev, a, b);
    if ok {
      WriteBlock(c, to, c.bufs[from].data);
      ReleaseTwo(c, from, to);
    }
  }

  /* One round of install_trans: block a of the log is copied to block b. */
  method CopyHome(c: BC.Bcache, dev: nat, a: nat, b: nat) returns (ok: bool)
    requires c.Valid() && a != b
    modifies c
    ensures c.Valid() && (!ok ==> c.truth == old(c.truth) && c.disk == old(c.disk))
    ensures ok ==> (dev, a) in old(c.truth)
    ensures ok ==> c.truth == old(c.truth)[(dev, b) := old(c.truth)[(dev, a)]]
    ensures ok ==> c.disk == old(c.disk)[(dev, b) := old(c.truth)[(dev, a)]]
    ensures ok ==> Settled(old(c.bufs), c.bufs, (dev, b))
    ensures old((dev, a) in c.disk && (dev, b) in c.disk && HasSpare(c.bufs) && (dev, b) in Dirty(c.bufs)) ==> ok
    ensures old((dev, a) in c.disk && (dev, b) in c.disk && AllSpare(c.bufs)) && |old(c.bufs)| >= 2 ==> ok
  {
    hide BC.Bcache.Valid;
    hide Dirty;
    hide HasSpare;
    hide AllSpare;
    var lbuf, dbuf;
    lbuf, dbuf, ok := ReadTwo(c, dev, a, b);
    if ok {
      WriteBlock(c, dbuf, c.bufs[lbuf].data);
      ReleaseTwo(c, lbuf, dbuf);
    }
  }

  // ----- how many buffers are pinned

  ghost function Count(bufs: seq<Buf>): nat {
    if bufs == [] then 0 else Count(bufs[..|bufs| - 1]) + if bufs[|bufs| - 1].dirty then 1 else 0
  }

  /* No two pinned buffers have the same block. */
  ghost predicate Apart(bufs: seq<Buf>) {
    forall i, j :: 0 <= i < j < |bufs| && bufs[i].dirty && bufs[j].dirty ==> BC.KeyOf(bufs[i]) != BC.KeyOf(bufs[j])
  }

  lemma DirtyLast(b0: seq<Buf>, x: Buf)
    requires Apart(b0 + [x])
    ensures Apart(b0) && Dirty(b0 + [x]) == Dirty(b0) + (if x.dirty then {BC.KeyOf(x)} else {})
    ensures x.dirty ==> BC.KeyOf(x) !in Dirty(b0)
  {
    var bufs := b0 + [x];
    assert bufs[|b0|] == x && forall i :: 0 <= i < |b0| ==> b0[i] == bufs[i];
    forall key | key in Dirty(b0) ensures key in Dirty(bufs) {
      var i :| 0 <= i < |b0| && b0[i].dirty && BC.KeyOf(b0[i]) == key;
      assert bufs[i].dirty && BC.KeyOf(bufs[i]) == key;
    }
  }

  lemma {:induction false} CountDirty(bufs: seq<Buf>)
    requires Apart(bufs)
    ensures |Dirty(bufs)| == Count(bufs)
  {
    if bufs == [] {
      assert Dirty(bufs) == {};
    } else {
      hide Dirty;
      hide Apart;
      var b0, x := bufs[..|bufs| - 1], bufs[|bufs| - 1];
      assert b0 + [x] == bufs;
      DirtyLast(b0, x);
      CountDirty(b0);
    }
  }

  lemma {:induction false} CountAll(bufs: seq<Buf>)
    ensures Count(bufs) <= |bufs|
    ensures Count(bufs) == |bufs| <==> forall i :: 0 <= i < |bufs| ==> bufs[i].dirty
  {
    if bufs != [] {
      var n := |bufs| - 1;
      CountAll(bufs[..n]);
      assert forall i :: 0 <= i < n ==> bufs[..n][i] == bufs[i];
      assert (forall i :: 0 <= i < |bufs| ==> bufs[i].dirty) <==>
             bufs[n].dirty && forall i :: 0 <= i < n ==> bufs[..n][i].dirty;
    }
  }

  lemma {:induction false} CountPins(dev: nat, bs: seq<int>)
    requires forall i, j :: 0 <= i < j < |bs| ==> bs[i] != bs[j]
    requires forall i :: 0 <= i < |bs| ==> bs[i] >= 0
    ensures |Pins(dev, bs)| == |bs|
  {
    if bs == [] {
      assert Pins(dev, bs) == {};
    } else {
      var b0, x := bs[..|bs| - 1], bs[|bs| - 1];
      CountPins(dev, b0);
      assert forall i :: 0 <= i < |b0| ==> bs[i] == b0[i];
      assert (dev, x) !in Pins(dev, b0);
      assert Pins(dev, bs) == Pins(dev, b0) + {(dev, x)};
    }
  }

  /* In a cache nobody reads from, a buffer can be recycled exactly if there are more buffers
     than blocks in the list. */
  lemma Spare(c: BC.Bcache, dev: nat, bs: seq<int>)
    requires c.Valid() && Quiet(c.bufs) && Dirty(c.bufs) == Pins(dev, bs)
    requires forall i, j :: 0 <= i < j < |bs| ==> bs[i] != bs[j]
    requires forall i :: 0 <= i < |bs| ==> bs[i] >= 0
    ensures HasSpare(c.bufs) <==> |bs| < |c.bufs|
    ensures !HasSpare(c.bufs) ==> forall k :: 0 <= k < |c.bufs| ==> BC.KeyOf(c.bufs[k]) in Pins(dev, bs)
    ensures bs == [] ==> AllSpare(c.bufs)
  {
    hide BC.Linked;
    forall i, j | 0 <= i < j < |c.bufs| && c.bufs[i].dirty && c.bufs[j].dirty
      ensures BC.KeyOf(c.bufs[i]) != BC.KeyOf(c.bufs[j])
    {
      if BC.KeyOf(c.bufs[i]) == BC.KeyOf(c.bufs[j]) { BC.OneBuffer(c.bufs, c.list, i, j); }
    }
    CountDirty(c.bufs);
    CountAll(c.bufs);
    CountPins(dev, bs);
    forall k | 0 <= k < |c.bufs| && c.bufs[k].dirty ensures BC.KeyOf(c.bufs[k]) in Pins(dev, bs) {
      assert BC.KeyOf(c.bufs[k]) in Dirty(c.bufs);
    }
    assert (forall k :: 0 <= k < |c.bufs| ==> c.bufs[k].dirty) || exists k :: 0 <= k < |c.bufs| && !c.bufs[k].dirty;
  }

  // ----- the log's code

  /* The blocks of the list that are not yet home. */
  ghost function Unwritten(s: State): seq<int> {
    match s.phase
    case Running => s.lh
    case WritingLog(_) => s.lh
    case Installing(t) => if t <= |s.lh| then s.lh[t..] else []
    case _ => []
  }

  /* The cache of device dev returns the log's view, and its disk is the log's disk. */
  ghost predicate Tied(view: seq<Block>, disk: seq<Block>, truth: map<Key, Block>, cdisk: map<Key, Block>, dev: nat) {
    && |view| == |disk|
    && forall b :: 0 <= b < |view| ==>
         (dev, b) in truth && (dev, b) in cdisk && truth[(dev, b)] == view[b] && cdisk[(dev, b)] == disk[b]
  }

  ghost predicate Consistent(l: Log, c: BC.Bcache, dev: nat)
    reads l, l.block, c
  {
    l.Valid() && c.Valid() && Tied(l.view, l.disk, c.truth, c.disk, dev)
  }

  /* And the pinned buffers are those of the blocks not yet home. */
  ghost predicate Backed(l: Log, c: BC.Bcache, dev: nat)
    reads l, l.block, c
  {
    Consistent(l, c, dev) && Dirty(c.bufs) == Pins(dev, Unwritten(l.s))
  }

  lemma TiedPut(view: seq<Block>, disk: seq<Block>, truth: map<Key, Block>, cdisk: map<Key, Block>, dev: nat, b: nat,
                d: Block)
    requires Tied(view, disk, truth, cdisk, dev) && b < |view|
    ensures Tied(view[b := d], disk[b := d], truth[(dev, b) := d], cdisk[(dev, b) := d], dev)
  {
  }

  /* A block of the log itself is never pinned. */
  lemma LogUnpinned(cfg: Config, s: State, dev: nat, a: nat)
    requires Shape(cfg, s) && cfg.start <= a < cfg.start + cfg.size
    ensures (dev, a) !in Pins(dev, Unwritten(s))
  {
    hide HeaderShape;
    hide UpdatesOk;
    hide PendingOk;
    hide CountActive;
  }

  lemma Distinct(cfg: Config, s: State)
    requires Shape(cfg, s)
    ensures var bs := Unwritten(s);
            && (forall i, j :: 0 <= i < j < |bs| ==> bs[i] != bs[j])
            && forall i :: 0 <= i < |bs| ==> bs[i] >= 0
  {
    hide HeaderShape;
    hide UpdatesOk;
    hide PendingOk;
    hide CountActive;
  }

  lemma PinsNext(dev: nat, bs: seq<int>)
    requires bs != [] && bs[0] >= 0 && forall i, j :: 0 <= i < j < |bs| ==> bs[i] != bs[j]
    ensures Pins(dev, bs) - {(dev, bs[0])} == Pins(dev, bs[1..]) && (dev, bs[0]) in Pins(dev, bs)
  {
    forall key | key in Pins(dev, bs) && key != (dev, bs[0]) ensures key in Pins(dev, bs[1..]) {
      var i :| 0 <= i < |bs| && bs[i] >= 0 && (dev, bs[i]) == key;
      assert bs[1..][i - 1] == bs[i];
    }
  }

  /* Whether a block of the log can be read into a cache nobody else reads from. */
  lemma RoomFor(cfg: Config, s: State, c: BC.Bcache, dev: nat, a: nat)
    requires Shape(cfg, s) && cfg.start <= a < cfg.start + cfg.size
    requires c.Valid() && Quiet(c.bufs) && Dirty(c.bufs) == Pins(dev, Unwritten(s))
    ensures HasSpare(c.bufs) <==> |Unwritten(s)| < |c.bufs|
    ensures !HasSpare(c.bufs) ==> forall k :: 0 <= k < |c.bufs| ==> BC.KeyOf(c.bufs[k]) != (dev, a)
    ensures Unwritten(s) == [] ==> AllSpare(c.bufs)
  {
    hide Shape;
    hide Pins;
    hide Dirty;
    hide HasSpare;
    hide BC.Bcache.Valid;
    Distinct(cfg, s);
    LogUnpinned(cfg, s, dev, a);
    Spare(c, dev, Unwritten(s));
  }

  /* The blocks of a round lie on the disk. */
  lemma Places(cfg: Config, s: State, t: nat)
    requires Shape(cfg, s) && t < |s.lh| < cfg.size
    ensures 0 <= s.lh[t] < |s.view| == |s.disk| && cfg.start + t + 1 < |s.view| && s.lh[t] != cfg.start + t + 1
    ensures cfg.start + t + 1 < cfg.start + cfg.size
  {
    hide HeaderShape;
    hide UpdatesOk;
    hide PendingOk;
    hide CountActive;
  }

  lemma WriteStep(cfg: Config, s: State, s': State, t: nat, dev: nat)
    requires Takes(cfg, s, DiskWrite, s') && s.phase == WritingLog(t) && t < |s.lh| < cfg.size
    ensures 0 <= s.lh[t] < |s.view| && cfg.start + t + 1 < |s.view| == |s.disk|
    ensures s'.disk == s.disk[cfg.start + t + 1 := s.view[s.lh[t]]]
    ensures s'.view == s.view[cfg.start + t + 1 := s.view[s.lh[t]]]
    ensures Pins(dev, Unwritten(s')) == Pins(dev, Unwritten(s)) - {(dev, cfg.start + t + 1)}
  {
    hide HeaderShape;
    hide UpdatesOk;
    hide PendingOk;
    hide CountActive;
    LogUnpinned(cfg, s, dev, cfg.start + t + 1);
  }

  /* Whatever is in the list is pinned until it is home. */
  lemma StillPinned(s: State, t: nat, dev: nat)
    requires t < |s.lh| && s.lh[t] >= 0 && (s.phase == WritingLog(t) || s.phase == Installing(t))
    ensures (dev, s.lh[t]) in Pins(dev, Unwritten(s))
  {
    assert s.phase == Installing(t) ==> Unwritten(s)[0] == s.lh[t];
  }

  lemma InLog(l: Log)
    requires l.Valid()
    ensures |l.s.lh| < l.cfg.size
  {
    hide Exec;
  }

  /* One round of write_log through the cache; ok is false where bread panics. */
  method WriteOne(l: Log, c: BC.Bcache, dev: nat, tail: nat) returns (ok: bool)
    requires Backed(l, c, dev) && tail < l.n && l.s.phase == WritingLog(tail)
    modifies l`disk, l`view, l`s, l`trail, c
    ensures Consistent(l, c, dev) && (!ok ==> l.s == old(l.s) && l.trail == old(l.trail))
    ensures ok ==> Backed(l, c, dev) && l.s.phase == WritingLog(tail + 1)
    ensures ok ==> l.trail == old(l.trail) + [DiskWrite] && l.s.updates == old(l.s.updates)
    ensures ok ==> Settled(old(c.bufs), c.bufs, (dev, l.cfg.start + tail + 1))
    ensures Quiet(old(c.bufs)) ==> (ok <==> l.n < |old(c.bufs)|)
  {
    hide Inv;
    hide Exec;
    hide Shape;
    hide Takes;
    hide BC.Bcache.Valid;
    hide Dirty;
    hide Pins;
    hide HasSpare;
    hide Quiet;
    InLog(l);
    Places(l.cfg, l.s, tail);
    StillPinned(l.s, tail, dev);
    assert l.block[tail] == l.block[..l.n][tail];
    ghost var s0 := l.s;
    if Quiet(c.bufs) {
      RoomFor(l.cfg, l.s, c, dev, l.cfg.start + tail + 1);
    }
    ok := CopyToLog(c, dev, l.cfg.start + tail + 1, l.block[tail]);
    if ok {
      TiedPut(s0.view, s0.disk, old(c.truth), old(c.disk), dev, l.cfg.start + tail + 1, s0.view[s0.lh[tail]]);
      l.WriteOne(tail);
      WriteStep(l.cfg, s0, l.s, tail, dev);
    }
  }

  lemma SettledQuiet(b0: seq<Buf>, b1: seq<Buf>, key: Key)
    requires Settled(b0, b1, key)
    ensures |b1| == |b0| && (Quiet(b0) ==> Quiet(b1))
  {
  }

  /* write_log.  In a cache nobody else reads from it panics exactly if every buffer is
     pinned, that is if the list is as long as the cache. */
  method WriteLog(l: Log, c: BC.Bcache, dev: nat) returns (ok: bool)
    requires Backed(l, c, dev) && l.s.phase == WritingLog(0) && l.n > 0
    modifies l`disk, l`view, l`s, l`trail, c
    ensures Consistent(l, c, dev) && (ok ==> |c.bufs| == |old(c.bufs)|)
    ensures ok ==> Backed(l, c, dev) && l.s.phase == WritingLog(l.n)
    ensures ok ==> l.trail == old(l.trail) + Writes(l.n) && l.s.updates == old(l.s.updates)
    ensures Quiet(old(c.bufs)) ==> (ok <==> l.n < |old(c.bufs)|) && (ok ==> Quiet(c.bufs))
  {
    hide Inv;
    hide Exec;
    hide Shape;
    hide Settled;
    hide Quiet;
    hide Dirty;
    hide Pins;
    hide Tied;
    hide BC.Bcache.Valid;
    ghost var n, b0 := l.n, c.bufs;
    var tail := 0;
    ok := true;
    while tail < l.n
      invariant tail <= l.n == n && ok && Backed(l, c, dev) && l.s.phase == WritingLog(tail)
      invariant l.trail == old(l.trail) + Writes(tail) && l.s.updates == old(l.s.updates)
      invariant |c.bufs| == |b0| && (Quiet(b0) ==> Quiet(c.bufs)) && (Quiet(b0) && tail > 0 ==> n < |b0|)
    {
      ghost var b1 := c.bufs;
      ok := WriteOne(l, c, dev, tail);
      if !ok {
        return;
      }
      SettledQuiet(b1, c.bufs, (dev, l.cfg.start + tail + 1));
      tail := tail + 1;
    }
  }

  /* write_head with m entries, up to its effect on the log. */
  method PutHead(l: Log, c: BC.Bcache, dev: nat, m: nat) returns (ok: bool)
    requires c.Valid() && m <= l.block.Length && m < WORDS
    modifies c
    ensures c.Valid() && (!ok ==> c.truth == old(c.truth) && c.disk == old(c.disk))
    ensures |c.bufs| == |old(c.bufs)| && (ok ==> (dev, l.cfg.start) in old(c.truth))
    ensures ok ==>
              var hb := PutHeader(old(c.truth)[(dev, l.cfg.start)], l.block[..m]);
              c.truth == old(c.truth)[(dev, l.cfg.start) := hb] && c.disk == old(c.disk)[(dev, l.cfg.start) := hb]
    ensures ok ==> Settled(old(c.bufs), c.bufs, (dev, l.cfg.start))
    ensures old((dev, l.cfg.start) in c.disk && HasSpare(c.bufs)) ==> ok
  {
    hide BC.Bcache.Valid;
    hide Dirty;
    var k;
    ghost var b0 := c.bufs;
    k, ok := c.Bread(dev, l.cfg.start);
    if ok {
      ReadDirty(b0, c.bufs, k);
      var hb := l.HeaderBlock(c.bufs[k].data, m);
      WriteBlock(c, k, hb);
      ghost var b1 := c.bufs;
      c.Brelse(k);
      ReadDirty(b1, c.bufs, k);
    }
  }

  lemma HeadStep(cfg: Config, s: State, s': State, dev: nat)
    requires Takes(cfg, s, DiskWrite, s') && |s.lh| < cfg.size
    requires s.phase in {WritingLog(|s.lh|), Installing(|s.lh|), Recovering(|s.lh|)}
    ensures cfg.start < |s.view| == |s.disk| && |s.lh| < WORDS && cfg.start < cfg.start + cfg.size
    ensures var hb := PutHeader(s.view[cfg.start], if s.phase.WritingLog? then s.lh else []);
            s'.disk == s.disk[cfg.start := hb] && s'.view == s.view[cfg.start := hb]
    ensures Pins(dev, Unwritten(s')) == Pins(dev, Unwritten(s)) - {(dev, cfg.start)}
  {
    hide HeaderShape;
    hide UpdatesOk;
    hide PendingOk;
    hide CountActive;
    LogUnpinned(cfg, s, dev, cfg.start);
    assert s.phase.WritingLog? ==> s'.lh[0..] == s.lh;
  }

  lemma HeadPlace(cfg: Config, s: State)
    requires Shape(cfg, s)
    ensures cfg.start < |s.view| == |s.disk| && cfg.start < cfg.start + cfg.size && |s.lh| < WORDS
  {
    hide HeaderShape;
    hide UpdatesOk;
    hide PendingOk;
    hide CountActive;
  }

  /* The write_head that commits. */
  method CommitRecord(l: Log, c: BC.Bcache, dev: nat) returns (ok: bool)
    requires Backed(l, c, dev) && l.s.phase == WritingLog(l.n)
    modifies l`disk, l`view, l`s, l`trail, c
    ensures Consistent(l, c, dev) && (!ok ==> l.s == old(l.s) && l.trail == old(l.trail))
    ensures ok ==> Backed(l, c, dev) && l.s.phase == Installing(0) && |c.bufs| == |old(c.bufs)|
    ensures ok ==> l.trail == old(l.trail) + [DiskWrite] && l.s.updates == old(l.s.updates)
    ensures ok ==> l.s.durable == |l.s.updates|
    ensures Quiet(old(c.bufs)) ==> (l.n < |old(c.bufs)| ==> ok) && (ok ==> Quiet(c.bufs))
  {
    hide Inv;
    hide Exec;
    hide Shape;
    hide Takes;
    hide BC.Bcache.Valid;
    hide Dirty;
    hide Pins;
    hide HasSpare;
    hide Quiet;
    InLog(l);
    HeadPlace(l.cfg, l.s);
    ghost var s0, b0 := l.s, c.bufs;
    if Quiet(c.bufs) {
      RoomFor(l.cfg, l.s, c, dev, l.cfg.start);
    }
    ok := PutHead(l, c, dev, l.n);
    if ok {
      SettledQuiet(b0, c.bufs, (dev, l.cfg.start));
      TiedPut(s0.view, s0.disk, old(c.truth), old(c.disk), dev, l.cfg.start, PutHeader(s0.view[l.cfg.start], s0.lh));
      l.CommitRecord();
      HeadStep(l.cfg, s0, l.s, dev);
    }
  }

  /* The write_head that erases the transaction. */
  method Erase(l: Log, c: BC.Bcache, dev: nat) returns (ok: bool)
    requires Backed(l, c, dev) && (l.s.phase == Installing(l.n) || l.s.phase == Recovering(l.n))
    modifies l`disk, l`view, l`n, l`s, l`trail, c
    ensures Consistent(l, c, dev) && (!ok ==> l.s == old(l.s) && l.trail == old(l.trail))
    ensures ok ==> Backed(l, c, dev) && l.n == 0 && Takes(l.cfg, old(l.s), DiskWrite, l.s)
    ensures ok ==> l.s.phase == (if old(l.s.phase).Installing? then Committed else Running)
    ensures ok ==> l.trail == old(l.trail) + [DiskWrite] && l.s.updates == old(l.s.updates)
    ensures ok ==> l.s.durable == old(l.s.durable) && l.s.base == old(l.s.base) && |c.bufs| == |old(c.bufs)|
    ensures Quiet(old(c.bufs)) ==> (|old(c.bufs)| > 0 ==> ok) && (ok ==> Quiet(c.bufs))
  {
    hide Inv;
    hide Exec;
    hide Shape;
    hide Takes;
    hide BC.Bcache.Valid;
    hide Dirty;
    hide Pins;
    hide HasSpare;
    hide Quiet;
    InLog(l);
    HeadPlace(l.cfg, l.s);
    ghost var s0, b0 := l.s, c.bufs;
    if Quiet(c.bufs) {
      RoomFor(l.cfg, l.s, c, dev, l.cfg.start);
    }
    ok := PutHead(l, c, dev, 0);
    if ok {
      SettledQuiet(b0, c.bufs, (dev, l.cfg.start));
      assert l.block[..0] == [];
      TiedPut(s0.view, s0.disk, old(c.truth), old(c.disk), dev, l.cfg.start, PutHeader(s0.view[l.cfg.start], []));
      l.Erase();
      HeadStep(l.cfg, s0, l.s, dev);
    }
  }

  lemma InstallStep(cfg: Config, s: State, s': State, t: nat, dev: nat)
    requires Takes(cfg, s, DiskWrite, s') && (s.phase == Installing(t) || s.phase == Recovering(t))
    requires t < |s.lh| < cfg.size
    ensures 0 <= s.lh[t] < |s.view| && cfg.start + t + 1 < |s.view| == |s.disk|
    ensures s'.disk == s.disk[s.lh[t] := s.view[cfg.start + t + 1]]
    ensures s'.view == s.view[s.lh[t] := s.view[cfg.start + t + 1]]
    ensures Pins(dev, Unwritten(s')) == Pins(dev, Unwritten(s)) - {(dev, s.lh[t])}
  {
    hide HeaderShape;
    hide UpdatesOk;
    hide PendingOk;
    hide CountActive;
    if s.phase == Installing(t) {
      Distinct(cfg, s);
      PinsNext(dev, Unwritten(s));
      assert Unwritten(s)[0] == s.lh[t] && Unwritten(s)[1..] == Unwritten(s');
    }
  }

  /* One round of install_trans through the cache. */
  method InstallOne(l: Log, c: BC.Bcache, dev: nat, tail: nat) returns (ok: bool)
    requires Backed(l, c, dev) && tail < l.n && (l.s.phase == Installing(tail) || l.s.phase == Recovering(tail))
    modifies l`disk, l`view, l`s, l`trail, c
    ensures Consistent(l, c, dev) && (!ok ==> l.s == old(l.s) && l.trail == old(l.trail))
    ensures ok ==> Backed(l, c, dev) && |c.bufs| == |old(c.bufs)|
    ensures ok ==> l.s.phase == (if old(l.s.phase).Installing? then Installing(tail + 1) else Recovering(tail + 1))
    ensures ok ==> l.trail == old(l.trail) + [DiskWrite] && Takes(l.cfg, old(l.s), DiskWrite, l.s)
    ensures Quiet(old(c.bufs)) ==>
              && ((if old(l.s.phase).Installing? then l.n < |old(c.bufs)| else |old(c.bufs)| >= 2) ==> ok)
              && (ok ==> Quiet(c.bufs))
  {
    hide Inv;
    hide Exec;
    hide Shape;
    hide Takes;
    hide BC.Bcache.Valid;
    hide Dirty;
    hide Pins;
    hide HasSpare;
    hide AllSpare;
    hide Quiet;
    InLog(l);
    Places(l.cfg, l.s, tail);
    assert l.block[tail] == l.block[..l.n][tail];
    ghost var s0, b0 := l.s, c.bufs;
    if l.s.phase == Installing(tail) {
      StillPinned(l.s, tail, dev);
    }
    if Quiet(c.bufs) {
      RoomFor(l.cfg, l.s, c, dev, l.cfg.start + tail + 1);
    }
    ok := CopyHome(c, dev, l.cfg.start + tail + 1, l.block[tail]);
    if ok {
      SettledQuiet(b0, c.bufs, (dev, l.block[tail]));
      TiedPut(s0.view, s0.disk, old(c.truth), old(c.disk), dev, s0.lh[tail], s0.view[l.cfg.start + tail + 1]);
      l.InstallOne(tail);
      InstallStep(l.cfg, s0, l.s, tail, dev);
    }
  }

  /* install_trans */
  method InstallTrans(l: Log, c: BC.Bcache, dev: nat) returns (ok: bool)
    requires Backed(l, c, dev) && (l.s.phase == Installing(0) || l.s.phase == Recovering(0))
    modifies l`disk, l`view, l`s, l`trail, c
    ensures Consistent(l, c, dev) && (ok ==> Backed(l, c, dev) && |c.bufs| == |old(c.bufs)|)
    ensures ok ==> l.s.phase == (if old(l.s.phase).Installing? then Installing(l.n) else Recovering(l.n))
    ensures ok ==> l.trail == old(l.trail) + Writes(l.n) && l.s.updates == old(l.s.updates)
    ensures ok ==> l.s.durable == old(l.s.durable) && l.s.base == old(l.s.base)
    ensures Quiet(old(c.bufs)) ==>
              && ((if old(l.s.phase).Installing? then l.n < |old(c.bufs)| else |old(c.bufs)| >= 2) ==> ok)
              && (ok ==> Quiet(c.bufs))
  {
    hide Inv;
    hide Exec;
    hide Shape;
    hide Quiet;
    hide Dirty;
    hide Pins;
    hide Tied;
    hide BC.Bcache.Valid;
    ghost var n, b0, p0 := l.n, c.bufs, l.s.phase;
    var tail := 0;
    ok := true;
    while tail < l.n
      invariant tail <= l.n == n && ok && Backed(l, c, dev)
      invariant l.s.phase == if p0.Installing? then Installing(tail) else Recovering(tail)
      invariant l.trail == old(l.trail) + Writes(tail) && l.s.updates == old(l.s.updates)
      invariant l.s.durable == old(l.s.durable) && l.s.base == old(l.s.base)
      invariant |c.bufs| == |b0| && (Quiet(b0) ==> Quiet(c.bufs))
    {
      ok := InstallOne(l, c, dev, tail);
      if !ok {
        return;
      }
      tail := tail + 1;
    }
  }

  lemma WithinLog(l: Log)
    requires l.Valid()
    ensures l.n < l.cfg.size
  {
    InLog(l);
  }

  /* commit: afterwards the list is empty and no buffer is pinned.  In a cache nobody else
     reads from it panics exactly if the list is as long as the cache, which a cache at least
     as large as the log rules out. */
  method Commit(l: Log, c: BC.Bcache, dev: nat) returns (ok: bool)
    requires Backed(l, c, dev) && l.s.phase == if l.n > 0 then WritingLog(0) else Committed
    modifies l`disk, l`view, l`n, l`s, l`trail, c
    ensures Consistent(l, c, dev) && (ok ==> Backed(l, c, dev) && l.s.phase == Committed && l.n == 0)
    ensures ok ==> Dirty(c.bufs) == {} && l.s.updates == old(l.s.updates) && l.s.durable == |l.s.updates|
    ensures ok ==> l.trail == old(l.trail) + Writes(if old(l.n) > 0 then 2 * old(l.n) + 2 else 0)
    ensures Quiet(old(c.bufs)) ==>
              && (ok <==> old(l.n) == 0 || old(l.n) < |old(c.bufs)|)
              && (l.cfg.size <= |old(c.bufs)| ==> ok)
              && (ok ==> Quiet(c.bufs))
  {
    hide Inv;
    hide Exec;
    hide Shape;
    hide Takes;
    hide Quiet;
    hide Dirty;
    hide Tied;
    hide BC.Bcache.Valid;
    WithinLog(l);
    ok := true;
    if l.n > 0 {
      ghost var k := l.n;
      ok := WriteLog(l, c, dev);
      if !ok { return; }
      ok := CommitRecord(l, c, dev);
      if !ok { return; }
      ok := InstallTrans(l, c, dev);
      if !ok { return; }
      ok := Erase(l, c, dev);
      if !ok { return; }
      assert Writes(k) + [DiskWrite] + Writes(k) + [DiskWrite] == Writes(2 * k + 2);
      assert l.trail == old(l.trail) + (Writes(k) + [DiskWrite] + Writes(k) + [DiskWrite]);
    } else {
      AllDurable(l.cfg, l.s);
    }
  }

  lemma HeaderReadStep(cfg: Config, s: State, s': State)
    requires Takes(cfg, s, ReadHead, s') && s.phase == Down
    ensures s'.disk == s.disk && s'.view == s.view && Unwritten(s') == Unwritten(s) == []
    ensures s'.phase == Recovering(0) && s'.updates == s.updates && s'.durable == s.durable && s'.base == s.base
    ensures DurableState(cfg, s') == DurableState(cfg, s)
  {
    hide HeaderShape;
    hide UpdatesOk;
    hide PendingOk;
    hide CountActive;
  }

  /* read_head through the cache. */
  method ReadHeader(l: Log, c: BC.Bcache, dev: nat) returns (ok: bool)
    requires Backed(l, c, dev) && l.s.phase == Down
    modifies l`n, l`s, l`trail, l.block, c
    ensures Consistent(l, c, dev) && |c.bufs| == |old(c.bufs)|
    ensures ok ==> Backed(l, c, dev) && Takes(l.cfg, old(l.s), ReadHead, l.s) && l.trail == old(l.trail) + [ReadHead]
    ensures Quiet(old(c.bufs)) ==> (|c.bufs| > 0 ==> ok) && (ok ==> Quiet(c.bufs))
  {
    hide Inv;
    hide Exec;
    hide Shape;
    hide Takes;
    hide BC.Bcache.Valid;
    hide Dirty;
    hide Pins;
    HeadPlace(l.cfg, l.s);
    ghost var s0, b0 := l.s, c.bufs;
    if Quiet(c.bufs) {
      RoomFor(l.cfg, l.s, c, dev, l.cfg.start);
    }
    var k;
    k, ok := c.Bread(dev, l.cfg.start);
    if ok {
      ReadDirty(b0, c.bufs, k);
      assert c.bufs[k].data == l.view[l.cfg.start];
      l.LoadHeader();
      HeaderReadStep(l.cfg, s0, l.s);
      ghost var b1 := c.bufs;
      c.Brelse(k);
      ReadDirty(b1, c.bufs, k);
    }
  }

  /* recover_from_log: afterwards every home block on the disk is as of the last commit, and
     nothing is pinned. */
  method RecoverFromLog(l: Log, c: BC.Bcache, dev: nat) returns (ok: bool)
    requires Backed(l, c, dev) && l.s.phase == Down
    modifies l, l.block, c
    ensures Consistent(l, c, dev) && (Quiet(old(c.bufs)) ==> (|old(c.bufs)| >= 2 ==> ok) && (ok ==> Quiet(c.bufs)))
    ensures ok ==> Backed(l, c, dev) && l.s.phase == Running && l.n == 0
    ensures ok ==> DurableState(l.cfg, l.s) == old(DurableState(l.cfg, l.s))
    ensures ok ==> SameHome(l.cfg, l.disk, DurableState(l.cfg, l.s))
  {
    hide Inv;
    hide Exec;
    hide Shape;
    hide Takes;
    hide Quiet;
    hide Dirty;
    hide Pins;
    hide Tied;
    hide SameHome;
    hide BC.Bcache.Valid;
    ghost var s0 := l.s;
    ok := ReadHeader(l, c, dev);
    if !ok { return; }
    HeaderReadStep(l.cfg, s0, l.s);
    ok := InstallTrans(l, c, dev);
    if !ok { return; }
    ok := Erase(l, c, dev);
    if !ok { return; }
    QuietDisk(l.cfg, l.s);
  }

  lemma PinsAbsorb(dev: nat, lh: seq<int>, b: int)
    requires b >= 0
    ensures Pins(dev, Absorb(lh, b)) == Pins(dev, lh) + {(dev, b)}
  {
    var lh' := Absorb(lh, b);
    assert b in lh';
    var j :| 0 <= j < |lh'| && lh'[j] == b;
    assert (dev, lh'[j]) in Pins(dev, lh');
    forall key | key in Pins(dev, lh) ensures key in Pins(dev, lh') {
      var i :| 0 <= i < |lh| && lh[i] >= 0 && (dev, lh[i]) == key;
      assert lh'[i] == lh[i];
    }
  }

  lemma AppendStep(cfg: Config, s: State, s': State, p: nat, b: int, d: Block)
    requires Takes(cfg, s, Append(p, b, d), s') && s.phase == Running
    ensures s'.disk == s.disk && 0 <= b < |s.view| && s'.view == s.view[b := d]
    ensures Unwritten(s) == s.lh && Unwritten(s') == Absorb(s.lh, b)
  {
    hide HeaderShape;
    hide UpdatesOk;
    hide CountActive;
  }

  /* The locked part of log_write on the buffer k that the caller holds and has changed to d:
     the block joins the list and its buffer is pinned. */
  method AppendWrite(l: Log, c: BC.Bcache, dev: nat, k: nat, d: Block, ghost p: nat)
    requires Backed(l, c, dev) && l.s.phase == Running
    requires k < |c.bufs| && c.bufs[k].dev == dev && c.bufs[k].valid && c.bufs[k].refcnt > 0
    requires Waiting(l.s.ops, p, c.bufs[k].blockno) && InArray(l.cfg, l.s.lh, c.bufs[k].blockno)
    modifies l`view, l`n, l`s, l`trail, l.block, c`bufs, c`truth
    ensures l.Matches() && Takes(l.cfg, old(l.s), Append(p, old(c.bufs[k].blockno), d), l.s)
    ensures c.Valid() && Tied(l.view, l.disk, c.truth, c.disk, dev) && Dirty(c.bufs) == Pins(dev, Unwritten(l.s))
    ensures Backed(l, c, dev) <==> Roomy(l.cfg, old(l.s), Append(p, old(c.bufs[k].blockno), d))
    ensures c.bufs == old(c.bufs)[k := old(c.bufs)[k].(data := d, dirty := true)]
  {
    hide Inv;
    hide Exec;
    hide Shape;
    hide Takes;
    hide BC.Bcache.Valid;
    hide Dirty;
    hide Pins;
    hide Absorb;
    ghost var s0, b := l.s, c.bufs[k].blockno;
    PinDirty(c.bufs, k, d);
    l.AppendWrite(c.bufs[k].blockno, d, p);
    AppendStep(l.cfg, s0, l.s, p, b, d);
    PinsAbsorb(dev, s0.lh, b);
    c.LogWrite(k, d);
  }

  lemma EndStep(cfg: Config, s: State, s': State, p: nat)
    requires (Takes(cfg, s, End(p), s') && s.phase == Running) || (Takes(cfg, s, Finish, s') && s.phase == Committed)
    ensures s'.disk == s.disk && s'.view == s.view && Unwritten(s') == Unwritten(s)
  {
    hide HeaderShape;
    hide UpdatesOk;
    hide PendingOk;
  }

  /* end_op: as commit, if this is the last operation. */
  method EndOp(l: Log, c: BC.Bcache, dev: nat, ghost p: nat) returns (ok: bool)
    requires Backed(l, c, dev) && l.s.phase == Running && Idle(l.s.ops, p)
    modifies l`disk, l`view, l`n, l`outstanding, l`committing, l`s, l`trail, c
    ensures Consistent(l, c, dev)
    ensures ok ==> Backed(l, c, dev) && l.s.phase == Running && l.outstanding == old(l.outstanding) - 1
    ensures ok ==> l.s.updates == old(l.s.updates)
    ensures ok && l.outstanding == 0 ==> l.s.durable == |l.s.updates| && l.n == 0 && Dirty(c.bufs) == {}
    ensures Quiet(old(c.bufs)) ==>
              && (ok <==> old(l.outstanding) > 1 || old(l.n) == 0 || old(l.n) < |old(c.bufs)|)
              && (l.cfg.size <= |old(c.bufs)| ==> ok)
              && (ok ==> Quiet(c.bufs))
  {
    hide Inv;
    hide Exec;
    hide Shape;
    hide Takes;
    hide Quiet;
    hide Dirty;
    hide Tied;
    hide BC.Bcache.Valid;
    ghost var s0 := l.s;
    ok := true;
    l.LeaveOp(p);
    EndStep(l.cfg, s0, l.s, p);
    if l.outstanding == 0 {
      ok := Commit(l, c, dev);
      if ok {
        ghost var s1 := l.s;
        l.FinishCommit();
        EndStep(l.cfg, s1, l.s, p);
      }
    }
  }

  /* bread on the log's device: whatever has been recycled meanwhile, the buffer holds what
     the log takes for the contents of the block. */
  method ReadBlock(l: Log, c: BC.Bcache, dev: nat, b: nat) returns (k: nat, ok: bool)
    requires Backed(l, c, dev) && b < |l.view|
    modifies c`bufs, c`disk
    ensures Consistent(l, c, dev) && (ok ==> Backed(l, c, dev))
    ensures ok ==> Got(c.bufs, c.truth, k, (dev, b)) && c.bufs[k].data == l.view[b]
    ensures !ok <==>
              !HasSpare(old(c.bufs)) && forall j :: 0 <= j < |old(c.bufs)| ==> BC.KeyOf(old(c.bufs)[j]) != (dev, b)
  {
    hide Inv;
    hide Exec;
    hide Shape;
    hide Dirty;
    hide Pins;
    hide BC.Bcache.Valid;
    ghost var b0 := c.bufs;
    k, ok := c.Bread(dev, b);
    if ok {
      ReadDirty(b0, c.bufs, k);
    }
  }

  /* The log and the cache at power-on, over the same disk. */
  method PowerOn(cfg: Config, d: seq<Block>, dev: nat, nbuf: nat) returns (l: Log, c: BC.Bcache)
    requires DiskOk(cfg, d)
    ensures fresh(l) && fresh(l.block) && fresh(c)
    ensures Backed(l, c, dev) && Quiet(c.bufs) && |c.bufs| == nbuf && l.s == Boot(cfg, d)
  {
    hide Inv;
    hide Exec;
    hide DiskOk;
    hide BC.Bcache.Valid;
    l := new Log(cfg, d);
    c := new BC.Bcache(nbuf, map b: nat | b < |d| :: (dev, b) := d[b]);
    assert Dirty(c.bufs) == {};
  }
}
