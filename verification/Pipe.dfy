/**
Pipes (pipe.c): a ring of 512 bytes with 32-bit counters that wrap.  The machine interleaves
the sections of code that run under the pipe's lock, of any number of readers and writers,
and the closing of descriptors, in any order; the class gives the code of these sections.
*/
module Pipe {

  const PIPESIZE: nat := 512
  const WRAP: nat := 0x1_0000_0000

  type byte = x: int | 0 <= x < 256
  type word = x: int | 0 <= x < 0x1_0000_0000

  // ----- the ring

  /* The counters are the true counts modulo 2^32, and the bytes not yet read are in the
     ring at their positions modulo the size of the ring. */
  ghost predicate Holds(data: seq<byte>, nread: word, nwrite: word, stored: seq<byte>, taken: nat) {
    && |data| == PIPESIZE && taken <= |stored| <= taken + PIPESIZE
    && nread == taken % WRAP && nwrite == |stored| % WRAP
    && forall k :: taken <= k < |stored| ==> data[k % PIPESIZE] == stored[k]
  }

  lemma RingPosition(n: nat)
    ensures (n % WRAP) % PIPESIZE == n % PIPESIZE
  {
    ModShift(n % WRAP, 0x80_0000 * (n / WRAP));
  }

  lemma ModShift(a: nat, q: nat)
    ensures (a + PIPESIZE * q) % PIPESIZE == a % PIPESIZE
  {
  }

  /* The tests for a full and an empty pipe survive the wrap of the counters. */
  lemma FullOrEmpty(data: seq<byte>, nread: word, nwrite: word, stored: seq<byte>, taken: nat)
    requires Holds(data, nread, nwrite, stored, taken)
    ensures nwrite == (nread + PIPESIZE) % WRAP <==> |stored| == taken + PIPESIZE
    ensures nread == nwrite <==> |stored| == taken
  {
  }

  lemma Distinct(a: nat, b: nat)
    requires a < b < a + PIPESIZE
    ensures a % PIPESIZE != b % PIPESIZE
  {
  }

  lemma PutByte(data: seq<byte>, nread: word, nwrite: word, stored: seq<byte>, taken: nat, x: byte)
    requires Holds(data, nread, nwrite, stored, taken) && |stored| < taken + PIPESIZE
    ensures nwrite % PIPESIZE == |stored| % PIPESIZE
    ensures Holds(data[nwrite % PIPESIZE := x], nread, (nwrite + 1) % WRAP, stored + [x], taken)
  {
    RingPosition(|stored|);
    NextCount(|stored|);
    var data', stored' := data[nwrite % PIPESIZE := x], stored + [x];
    forall k | taken <= k < |stored'| ensures data'[k % PIPESIZE] == stored'[k] {
      if k < |stored| { Distinct(k, |stored|); }
    }
  }

  lemma GetByte(data: seq<byte>, nread: word, nwrite: word, stored: seq<byte>, taken: nat)
    requires Holds(data, nread, nwrite, stored, taken) && taken < |stored|
    ensures data[nread % PIPESIZE] == stored[taken]
    ensures Holds(data, (nread + 1) % WRAP, nwrite, stored, taken + 1)
  {
    RingPosition(taken);
    NextCount(taken);
  }

  lemma NextCount(n: nat)
    ensures (n % WRAP + 1) % WRAP == (n + 1) % WRAP
  {
  }

  // ----- what one section of code under the lock does

  datatype Outcome = Finished | Sleeps | Fails

  function Min(a: nat, b: nat): nat {
    if a < b then a else b
  }

  /* How many more bytes a writer stores before it finishes or finds the pipe full. */
  function WriterTakes(len: nat, taken: nat, left: nat): nat {
    Min(left, if len <= taken + PIPESIZE then taken + PIPESIZE - len else 0)
  }

  function WriterEnds(left: nat, m: nat, readopen: bool, killed: bool): Outcome {
    if m == left then Finished else if !readopen || killed then Fails else Sleeps
  }

  function ReaderEnds(len: nat, taken: nat, writeopen: bool, killed: bool): Outcome {
    if len == taken && writeopen then (if killed then Fails else Sleeps) else Finished
  }

  // ----- any number of readers and writers

  /* What a process is doing with the pipe, through its descriptor fd. */
  datatype Busy = Idle | Writing(id: nat, fd: nat, src: seq<byte>, i: nat) | Reading(fd: nat, n: nat)

  datatype Result = Wrote(id: nat, src: seq<byte>, ok: bool) | ReadBytes(n: nat, out: seq<byte>, drained: bool,
                                                                         ok: bool)

  /* stored, taken: as in the class.  tags: which write stored each byte.  rfds, wfds: the
     open descriptors (process, number) of either end, whose number is the reference
     count of its file.  rsleep, wsleep: the processes asleep on nread and on nwrite.
     out: everything handed to readers so far, in order. */
  datatype State = State(stored: seq<byte>, tags: seq<nat>, taken: nat, readopen: bool, writeopen: bool,
                         rfds: set<(nat, nat)>, wfds: set<(nat, nat)>, rsleep: set<nat>, wsleep: set<nat>,
                         procs: seq<Busy>, nextid: nat,
                         out: seq<byte>, results: seq<Result>, frees: nat)

  datatype Action =
    | StartWrite(p: nat, fd: nat, src: seq<byte>)
    | StartRead(p: nat, fd: nat, n: nat)
    | RunWriter(p: nat, killed: bool)
    | RunReader(p: nat, killed: bool)
    | Rouse(p: nat)                                             // kill wakes a sleeper
    | Dup(p: nat, fd: nat, q: nat, fd': nat, writable: bool)    // dup, or fork when q is a new process
    | CloseFd(p: nat, fd: nat, writable: bool)

  predicate Enabled(s: State, a: Action) {
    match a
    case StartWrite(p, fd, src) => p < |s.procs| && s.procs[p].Idle? && (p, fd) in s.wfds
    case StartRead(p, fd, n) => p < |s.procs| && s.procs[p].Idle? && (p, fd) in s.rfds
    case RunWriter(p, killed) => p < |s.procs| && s.procs[p].Writing? && s.procs[p].i <= |s.procs[p].src|
    && p !in s.wsleep
    case RunReader(p, killed) => p < |s.procs| && s.procs[p].Reading? && p !in s.rsleep
    case Rouse(p) => true
    case Dup(p, fd, q, fd', writable) =>
      p < |s.procs| && s.procs[p].Idle? && (p, fd) in (if writable then s.wfds else s.rfds)
      && (q, fd') !in s.rfds + s.wfds
    case CloseFd(p, fd, writable) =>
      p < |s.procs| && s.procs[p].Idle? && (p, fd) in (if writable then s.wfds else s.rfds)
  }

  function Repeat(id: nat, n: nat): seq<nat> {
    seq(n, i => id)
  }

  function Writer(s: State, p: nat, killed: bool): State
    requires Enabled(s, RunWriter(p, killed))
  {
    var w := s.procs[p];
    var m := WriterTakes(|s.stored|, s.taken, |w.src| - w.i);
    var end := WriterEnds(|w.src| - w.i, m, s.readopen, killed);
    var s1 := s.(stored := s.stored + w.src[w.i..w.i + m], tags := s.tags + Repeat(w.id, m));
    if end == Sleeps then s1.(procs := s.procs[p := w.(i := w.i + m)], rsleep := {}, wsleep := s.wsleep + {p})
    else
      s1.(procs := s.procs[p := Idle], results := s.results + [Wrote(w.id, w.src, end == Finished)],
          rsleep := if end == Finished then {} else s.rsleep)
  }

  function Reader(s: State, p: nat, killed: bool): State
    requires Enabled(s, RunReader(p, killed))
  {
    var n, end := s.procs[p].n, ReaderEnds(|s.stored|, s.taken, s.writeopen, killed);
    if end == Sleeps then s.(rsleep := s.rsleep + {p})
    else if end == Fails then s.(procs := s.procs[p := Idle], results := s.results + [ReadBytes(n, [], false, false)])
    else
      var k := Min(n, if s.taken <= |s.stored| then |s.stored| - s.taken else 0);
      var got := if s.taken + k <= |s.stored| then s.stored[s.taken..s.taken + k] else [];
      s.(taken := s.taken + k, out := s.out + got, procs := s.procs[p := Idle], wsleep := {},
         results := s.results + [ReadBytes(n, got, |s.stored| == s.taken && !s.writeopen, true)])
  }

  /* fileclose: the end is closed with the last descriptor, and the page freed with the last end. */
  function Closed(s: State, p: nat, fd: nat, writable: bool): State {
    var s1 := if writable then s.(wfds := s.wfds - {(p, fd)}) else s.(rfds := s.rfds - {(p, fd)});
    if |if writable then s1.wfds else s1.rfds| > 0 then s1
    else
      var s2 := if writable then s1.(writeopen := false, rsleep := {}) else s1.(readopen := false, wsleep := {});
      if !s2.readopen && !s2.writeopen then s2.(frees := s.frees + 1) else s2
  }

  function Apply(s: State, a: Action): State
    requires Enabled(s, a)
  {
    match a
    case StartWrite(p, fd, src) => s.(procs := s.procs[p := Writing(s.nextid, fd, src, 0)], nextid := s.nextid + 1)
    case StartRead(p, fd, n) => s.(procs := s.procs[p := Reading(fd, n)])
    case RunWriter(p, killed) => Writer(s, p, killed)
    case RunReader(p, killed) => Reader(s, p, killed)
    case Rouse(p) => s.(rsleep := s.rsleep - {p}, wsleep := s.wsleep - {p})
    case Dup(p, fd, q, fd', writable) =>
      if writable then s.(wfds := s.wfds + {(q, fd')}) else s.(rfds := s.rfds + {(q, fd')})
    case CloseFd(p, fd, writable) => Closed(s, p, fd, writable)
  }

  /* pipealloc: one descriptor for each end, both in the calling process. */
  function Init(nprocs: nat, p: nat, fd0: nat, fd1: nat): State {
    State([], [], 0, true, true, {(p, fd0)}, {(p, fd1)}, {}, {}, seq(nprocs, i => Idle), 0, [], [], 0)
  }

  // ----- the code

  /* rsleep and wsleep are the processes asleep on nread and on nwrite, and frees counts the
     calls of kfree.  `Mirrors` ties the object to a state of the machine above, and each
     method is proved to take that state where the machine goes. */
  class PipeBuffer {
    const data: array<byte>
    var nread: word
    var nwrite: word
    var readopen: bool
    var writeopen: bool
    var rsleep: set<nat>
    var wsleep: set<nat>
    var frees: nat
    ghost var stored: seq<byte>
    ghost var taken: nat

    constructor ()
      ensures Valid() && stored == [] && taken == 0 && readopen && writeopen && fresh(data)
      ensures forall n, p, fd0, fd1 :: Mirrors(Init(n, p, fd0, fd1))
    {
      data := new byte[PIPESIZE](i => 0);
      nread, nwrite, readopen, writeopen := 0, 0, true, true;
      rsleep, wsleep, frees := {}, {}, 0;
      stored, taken := [], 0;
    }

    ghost predicate Valid()
      reads this, data
    {
      Holds(data[..], nread, nwrite, stored, taken)
    }

    ghost predicate Mirrors(s: State)
      reads this, data
    {
      && Valid() && stored == s.stored && taken == s.taken && readopen == s.readopen && writeopen == s.writeopen
      && rsleep == s.rsleep && wsleep == s.wsleep && frees == s.frees
    }

    /* The loop of pipewrite from byte i on, until it ends or finds the pipe full. */
    method Fill(src: seq<byte>, i: nat) returns (i': nat)
      requires Valid() && i <= |src|
      modifies this`nwrite, this`stored, data
      ensures Valid() && i' == i + WriterTakes(|old(stored)|, taken, |src| - i) && stored == old(stored) + src[i..i']
      ensures i <= i' <= |src| && (i' < |src| ==> |stored| == taken + PIPESIZE)
    {
      i' := i;
      while i' < |src|
        invariant Valid() && i <= i' <= |src| && stored == old(stored) + src[i..i']
      {
        FullOrEmpty(data[..], nread, nwrite, stored, taken);
        if nwrite == (nread + PIPESIZE) % WRAP {
          return;
        }
        PutByte(data[..], nread, nwrite, stored, taken, src[i']);
        data[nwrite % PIPESIZE] := src[i'];
        nwrite := (nwrite + 1) % WRAP;
        stored := stored + [src[i']];
        i' := i' + 1;
      }
    }

    /* pipewrite by process p from byte i on, until it returns or sleeps. */
    method Write(p: nat, src: seq<byte>, i: nat, killed: bool, ghost s: State) returns (i': nat, r: Outcome)
      requires Mirrors(s) && Enabled(s, RunWriter(p, killed)) && s.procs[p].src == src && s.procs[p].i == i
      modifies this`nwrite, this`stored, this`rsleep, this`wsleep, data
      ensures i <= i' <= |src| && stored == old(stored) + src[i..i']
      ensures r == Finished <==> i' == |src|
      ensures r == Fails <==> i' < |src| && |stored| == taken + PIPESIZE && (!readopen || killed)
      ensures r == Sleeps <==> i' < |src| && |stored| == taken + PIPESIZE && readopen && !killed
      ensures rsleep == (if r == Fails then old(rsleep) else {})
      ensures wsleep == (if r == Sleeps then old(wsleep) + {p} else old(wsleep))
      ensures Mirrors(Apply(s, RunWriter(p, killed)))
    {
      hide Holds;
      i' := Fill(src, i);
      if i' < |src| {
        if !readopen || killed {
          return i', Fails;
        }
        rsleep := {};
        wsleep := wsleep + {p};
        return i', Sleeps;
      }
      rsleep := {};
      return i', Finished;
    }

    /* piperead by process p from its test for an empty pipe on, until it returns or sleeps. */
    method Read(p: nat, n: nat, killed: bool, ghost s: State) returns (out: seq<byte>, r: Outcome)
      requires Mirrors(s) && Enabled(s, RunReader(p, killed)) && s.procs[p].n == n
      modifies this`nread, this`taken, this`rsleep, this`wsleep
      ensures taken == old(taken) + |out| <= |stored| && out == stored[old(taken)..taken]
      ensures r == Sleeps <==> |stored| == old(taken) && writeopen && !killed
      ensures r == Fails <==> |stored| == old(taken) && writeopen && killed
      ensures |out| <= n && (r == Finished ==> |out| == n || taken == |stored|) && (r != Finished ==> out == [])
      ensures rsleep == (if r == Sleeps then old(rsleep) + {p} else old(rsleep))
      ensures wsleep == (if r == Finished then {} else old(wsleep))
      ensures Mirrors(Apply(s, RunReader(p, killed)))
    {
      FullOrEmpty(data[..], nread, nwrite, stored, taken);
      out := [];
      if nread == nwrite && writeopen {
        if killed {
          return out, Fails;
        }
        rsleep := rsleep + {p};
        return out, Sleeps;
      }
      out := Drain(n);
      wsleep := {};
      return out, Finished;
    }

    /* The loop of piperead. */
    method Drain(n: nat) returns (out: seq<byte>)
      requires Valid()
      modifies this`nread, this`taken
      ensures Valid() && taken == old(taken) + |out| <= |stored| && out == stored[old(taken)..taken]
      ensures old(taken) <= |stored| && |out| == Min(n, |stored| - old(taken))
    {
      out := [];
      var i := 0;
      FullOrEmpty(data[..], nread, nwrite, stored, taken);
      while i < n
        invariant Valid() && 0 <= i <= n && i == |out|
        invariant taken == old(taken) + i <= |stored| && out == stored[old(taken)..taken]
      {
        FullOrEmpty(data[..], nread, nwrite, stored, taken);
        if nread == nwrite {
          break;
        }
        GetByte(data[..], nread, nwrite, stored, taken);
        out := out + [data[nread % PIPESIZE]];
        nread := (nread + 1) % WRAP;
        taken := taken + 1;
        i := i + 1;
      }
    }

    /* pipeclose, which fileclose calls with the last descriptor of an end. */
    method Close(writable: bool, ghost s: State, ghost p: nat, ghost fd: nat)
      requires Mirrors(s) && Enabled(s, CloseFd(p, fd, writable))
      requires (if writable then s.wfds else s.rfds) == {(p, fd)}
      modifies this`readopen, this`writeopen, this`rsleep, this`wsleep, this`frees
      ensures Mirrors(Apply(s, CloseFd(p, fd, writable)))
      ensures if writable then rsleep == {} && !writeopen && readopen == old(readopen)
              else wsleep == {} && !readopen && writeopen == old(writeopen)
      ensures frees == old(frees) + if !readopen && !writeopen then 1 else 0
    {
      if writable {
        writeopen := false;
        rsleep := {};
      } else {
        readopen := false;
        wsleep := {};
      }
      if !readopen && !writeopen {
        frees := frees + 1;
      }
    }
  }

  // ----- the invariant

  /* The bytes that write id stored. */
  function Mine(stored: seq<byte>, tags: seq<nat>, id: nat): seq<byte>
    requires |stored| == |tags|
  {
    if stored == [] then []
    else
      var n := |stored| - 1;
      Mine(stored[..n], tags[..n], id) + (if tags[n] == id then [stored[n]] else [])
  }

  lemma {:induction false} MineAppend(stored: seq<byte>, tags: seq<nat>, more: seq<byte>, id: nat, x: nat)
    requires |stored| == |tags|
    ensures Mine(stored + more, tags + Repeat(x, |more|), id) == Mine(stored, tags, id) + (if x == id then more else [])
    decreases |more|
  {
    var n := |more|;
    if n == 0 {
      assert stored + more == stored && tags + Repeat(x, 0) == tags;
    } else {
      MineAppend(stored, tags, more[..n - 1], id, x);
      assert (stored + more)[..|stored| + n - 1] == stored + more[..n - 1];
      assert (tags + Repeat(x, n))[..|tags| + n - 1] == tags + Repeat(x, n - 1);
      assert more == more[..n - 1] + [more[n - 1]];
    }
  }

  ghost predicate DataOk(s: State) {
    && |s.tags| == |s.stored| && s.taken <= |s.stored| <= s.taken + PIPESIZE && s.out == s.stored[..s.taken]
    && (forall t :: t in s.tags ==> t < s.nextid)
  }

  /* Every running write has stored what it has got to, every finished one everything. */
  ghost predicate WritesOk(s: State)
    requires |s.tags| == |s.stored|
  {
    && (forall p :: 0 <= p < |s.procs| && s.procs[p].Writing? ==> WriterOk(s, s.procs[p]))
    && (forall p, q :: 0 <= p < q < |s.procs| && s.procs[p].Writing? && s.procs[q].Writing? ==>
          s.procs[p].id != s.procs[q].id)
    && (forall k :: 0 <= k < |s.results| && s.results[k].Wrote? ==> DoneOk(s, s.results[k]))
  }

  ghost predicate WriterOk(s: State, w: Busy)
    requires |s.tags| == |s.stored| && w.Writing?
  {
    w.id < s.nextid && w.i <= |w.src| && Mine(s.stored, s.tags, w.id) == w.src[..w.i]
  }

  ghost predicate DoneOk(s: State, r: Result)
    requires |s.tags| == |s.stored| && r.Wrote?
  {
    && r.id < s.nextid && (forall p :: 0 <= p < |s.procs| && s.procs[p].Writing? ==> s.procs[p].id != r.id)
    && Mine(s.stored, s.tags, r.id) <= r.src && (r.ok <==> Mine(s.stored, s.tags, r.id) == r.src)
  }

  ghost predicate ReadsOk(results: seq<Result>) {
    forall k ::
      0 <= k < |results| && results[k].ReadBytes? && results[k].ok && results[k].n > 0 && results[k].out == [] ==>
      results[k].drained
  }

  /* An end is open as long as it has a descriptor, a process at work keeps its own, and
     the page is freed when both ends are closed. */
  ghost predicate EndsOk(s: State) {
    && (s.readopen <==> s.rfds != {}) && (s.writeopen <==> s.wfds != {})
    && s.frees == (if s.readopen || s.writeopen then 0 else 1)
    && (forall p :: 0 <= p < |s.procs| && s.procs[p].Writing? ==> (p, s.procs[p].fd) in s.wfds)
    && (forall p :: 0 <= p < |s.procs| && s.procs[p].Reading? ==> (p, s.procs[p].fd) in s.rfds)
  }

  ghost predicate Inv(s: State) {
    DataOk(s) && WritesOk(s) && ReadsOk(s.results) && EndsOk(s)
  }

  lemma {:induction false} MineFresh(stored: seq<byte>, tags: seq<nat>, id: nat)
    requires |stored| == |tags| && forall t :: t in tags ==> t < id
    ensures Mine(stored, tags, id) == []
    decreases |stored|
  {
    if stored != [] {
      var n := |stored| - 1;
      assert tags[n] in tags && forall t :: t in tags[..n] ==> t in tags;
      MineFresh(stored[..n], tags[..n], id);
    }
  }

  lemma StartKeeps(s: State, a: Action)
    requires Inv(s) && Enabled(s, a) && (a.StartWrite? || a.StartRead?)
    ensures Inv(Apply(s, a))
  {
    MineFresh(s.stored, s.tags, s.nextid);
    var s' := Apply(s, a);
    forall k | 0 <= k < |s.results| && s.results[k].Wrote? ensures DoneOk(s', s.results[k]) {
      assert DoneOk(s, s.results[k]);
    }
    forall p | 0 <= p < |s'.procs| && s'.procs[p].Writing? ensures WriterOk(s', s'.procs[p]) {
      assert p != a.p ==> WriterOk(s, s.procs[p]);
    }
  }

  lemma WriterData(s: State, p: nat, killed: bool)
    requires Inv(s) && Enabled(s, RunWriter(p, killed))
    ensures DataOk(Writer(s, p, killed))
  {
    var w, s' := s.procs[p], Writer(s, p, killed);
    assert WriterOk(s, w);
    assert s'.stored[..s'.taken] == s.stored[..s.taken];
  }

  /* Writes still running, after a section of the writer p. */
  lemma WriterActive(s: State, p: nat, killed: bool, q: nat)
    requires Inv(s) && Enabled(s, RunWriter(p, killed)) && q < |s.procs| && Writer(s, p, killed).procs[q].Writing?
    ensures var s' := Writer(s, p, killed); |s'.tags| == |s'.stored| && WriterOk(s', s'.procs[q])
  {
    hide Mine;
    hide EndsOk;
    hide ReadsOk;
    hide DoneOk;
    var w := s.procs[p];
    var m := WriterTakes(|s.stored|, s.taken, |w.src| - w.i);
    assert WriterOk(s, w);
    assert WriterOk(s, s.procs[q]);
    assert q < p || p < q || q == p;
    MineAppend(s.stored, s.tags, w.src[w.i..w.i + m], s.procs[q].id, w.id);
    assert w.src[..w.i] + w.src[w.i..w.i + m] == w.src[..w.i + m];
  }

  /* Writes that have returned. */
  lemma WriterDone(s: State, p: nat, killed: bool, k: nat)
    requires Inv(s) && Enabled(s, RunWriter(p, killed))
    requires k < |Writer(s, p, killed).results| && Writer(s, p, killed).results[k].Wrote?
    ensures var s' := Writer(s, p, killed); |s'.tags| == |s'.stored| && DoneOk(s', s'.results[k])
  {
    hide Mine;
    hide EndsOk;
    hide ReadsOk;
    var w, s' := s.procs[p], Writer(s, p, killed);
    var m := WriterTakes(|s.stored|, s.taken, |w.src| - w.i);
    var more := w.src[w.i..w.i + m];
    assert WriterOk(s, w);
    if k < |s.results| {
      assert DoneOk(s, s.results[k]);
      MineAppend(s.stored, s.tags, more, s.results[k].id, w.id);
    } else {
      MineAppend(s.stored, s.tags, more, w.id, w.id);
      assert w.src[..w.i] + more == w.src[..w.i + m] && w.src[..|w.src|] == w.src;
      forall q | 0 <= q < |s'.procs| && s'.procs[q].Writing? ensures s'.procs[q].id != w.id {
        assert q < p || p < q;
      }
    }
  }

  lemma WriterWrites(s: State, p: nat, killed: bool)
    requires Inv(s) && Enabled(s, RunWriter(p, killed))
    ensures var s' := Writer(s, p, killed); |s'.tags| == |s'.stored| && WritesOk(s')
  {
    hide WriterOk;
    hide DoneOk;
    hide EndsOk;
    hide ReadsOk;
    var s' := Writer(s, p, killed);
    forall q | 0 <= q < |s'.procs| && s'.procs[q].Writing?
      ensures WriterOk(s', s'.procs[q])
    {
      WriterActive(s, p, killed, q);
    }
    forall k | 0 <= k < |s'.results| && s'.results[k].Wrote?
      ensures DoneOk(s', s'.results[k])
    {
      WriterDone(s, p, killed, k);
    }
  }

  lemma WriterKeeps(s: State, p: nat, killed: bool)
    requires Inv(s) && Enabled(s, RunWriter(p, killed))
    ensures Inv(Writer(s, p, killed))
  {
    hide WritesOk;
    WriterData(s, p, killed);
    WriterWrites(s, p, killed);
  }

  lemma ReaderKeeps(s: State, p: nat, killed: bool)
    requires Inv(s) && Enabled(s, RunReader(p, killed))
    ensures Inv(Reader(s, p, killed))
  {
    hide Mine;
    var s' := Reader(s, p, killed);
    forall k | 0 <= k < |s.results| && s.results[k].Wrote? ensures DoneOk(s', s.results[k]) {
      assert DoneOk(s, s.results[k]);
    }
    forall q | 0 <= q < |s'.procs| && s'.procs[q].Writing? ensures WriterOk(s', s'.procs[q]) {
      assert WriterOk(s, s.procs[q]);
    }
    forall k | 0 <= k < |s'.results| && s'.results[k].Wrote? ensures DoneOk(s', s'.results[k]) {
      assert k < |s.results| ==> s'.results[k] == s.results[k];
    }
  }

  lemma WritesSame(s: State, s': State)
    requires |s.tags| == |s.stored| && WritesOk(s)
    requires s' == s.(readopen := s'.readopen, writeopen := s'.writeopen, rfds := s'.rfds, wfds := s'.wfds,
                      rsleep := s'.rsleep, wsleep := s'.wsleep, frees := s'.frees)
    ensures WritesOk(s')
  {
    hide Mine;
    forall k | 0 <= k < |s.results| && s.results[k].Wrote? ensures DoneOk(s', s.results[k]) {
      assert DoneOk(s, s.results[k]);
    }
    forall q | 0 <= q < |s.procs| && s.procs[q].Writing? ensures WriterOk(s', s.procs[q]) {
      assert WriterOk(s, s.procs[q]);
    }
  }

  lemma ClosedEnds(s: State, p: nat, fd: nat, writable: bool)
    requires EndsOk(s) && Enabled(s, CloseFd(p, fd, writable))
    ensures EndsOk(Closed(s, p, fd, writable))
  {
    var fds := if writable then s.wfds - {(p, fd)} else s.rfds - {(p, fd)};
    assert |fds| > 0 <==> fds != {};
  }

  lemma EndsKeep(s: State, a: Action)
    requires Inv(s) && Enabled(s, a) && (a.Dup? || a.CloseFd? || a.Rouse?)
    ensures Inv(Apply(s, a))
  {
    hide WritesOk;
    hide ReadsOk;
    hide EndsOk;
    WritesSame(s, Apply(s, a));
    if a.CloseFd? {
      ClosedEnds(s, a.p, a.fd, a.writable);
    } else {
      DupEnds(s, a);
    }
  }

  lemma DupEnds(s: State, a: Action)
    requires EndsOk(s) && Enabled(s, a) && (a.Dup? || a.Rouse?)
    ensures EndsOk(Apply(s, a))
  {
    hide Writer;
    hide Reader;
    hide Closed;
  }

  lemma StepKeeps(s: State, a: Action)
    requires Inv(s) && Enabled(s, a)
    ensures Inv(Apply(s, a))
  {
    hide Inv;
    match a
    case StartWrite(p, fd, src) => StartKeeps(s, a);
    case StartRead(p, fd, n) => StartKeeps(s, a);
    case RunWriter(p, killed) => WriterKeeps(s, p, killed);
    case RunReader(p, killed) => ReaderKeeps(s, p, killed);
    case Rouse(p) => EndsKeep(s, a);
    case Dup(p, fd, q, fd', writable) => EndsKeep(s, a);
    case CloseFd(p, fd, writable) => EndsKeep(s, a);
  }

  // ----- whole runs

  predicate Runs(s: State, acts: seq<Action>)
    decreases |acts|
  {
    acts == [] || (Enabled(s, acts[0]) && Runs(Apply(s, acts[0]), acts[1..]))
  }

  function Final(s: State, acts: seq<Action>): State
    requires Runs(s, acts)
    decreases |acts|
  {
    if acts == [] then s else Final(Apply(s, acts[0]), acts[1..])
  }

  lemma {:induction false} RunsKeep(s: State, acts: seq<Action>)
    requires Inv(s) && Runs(s, acts)
    ensures Inv(Final(s, acts))
    decreases |acts|
  {
    hide Inv;
    hide Enabled;
    hide Apply;
    if acts != [] {
      StepKeeps(s, acts[0]);
      RunsKeep(Apply(s, acts[0]), acts[1..]);
    }
  }

  /* Whatever readers and writers do: the bytes read are a prefix of the bytes stored, at
     most PIPESIZE are outstanding, a write returns its length exactly if it has stored its
     bytes in order and without loss, and -1 exactly if some are missing, a read of n > 0
     bytes returned none only at the end, and the page is freed exactly once, when nobody has a descriptor. */
  lemma Fifo(nprocs: nat, p: nat, fd0: nat, fd1: nat, acts: seq<Action>)
    requires Runs(Init(nprocs, p, fd0, fd1), acts)
    ensures var s := Final(Init(nprocs, p, fd0, fd1), acts);
            && s.out <= s.stored && |s.stored| - |s.out| <= PIPESIZE && |s.tags| == |s.stored|
            && (forall k :: 0 <= k < |s.results| && s.results[k].Wrote? ==>
                  && Mine(s.stored, s.tags, s.results[k].id) <= s.results[k].src
                  && (s.results[k].ok <==> Mine(s.stored, s.tags, s.results[k].id) == s.results[k].src))
            && ReadsOk(s.results)
            && s.frees == (if s.rfds == {} && s.wfds == {} then 1 else 0)
  {
    hide Mine;
    var s0 := Init(nprocs, p, fd0, fd1);
    InitOk(nprocs, p, fd0, fd1);
    RunsKeep(s0, acts);
    var s := Final(s0, acts);
    forall k | 0 <= k < |s.results| && s.results[k].Wrote?
      ensures Mine(s.stored, s.tags, s.results[k].id) <= s.results[k].src
      ensures s.results[k].ok <==> Mine(s.stored, s.tags, s.results[k].id) == s.results[k].src
    {
      assert DoneOk(s, s.results[k]);
    }
  }

  /* Nobody uses the pipe after its page is freed. */
  lemma NoUseAfterFree(nprocs: nat, p: nat, fd0: nat, fd1: nat, acts: seq<Action>, q: nat)
    requires Runs(Init(nprocs, p, fd0, fd1), acts)
    requires var s := Final(Init(nprocs, p, fd0, fd1), acts); q < |s.procs| && !s.procs[q].Idle?
    ensures Final(Init(nprocs, p, fd0, fd1), acts).frees == 0
  {
    hide Mine;
    hide WritesOk;
    hide ReadsOk;
    var s0 := Init(nprocs, p, fd0, fd1);
    InitOk(nprocs, p, fd0, fd1);
    RunsKeep(s0, acts);
  }

  lemma InitOk(nprocs: nat, p: nat, fd0: nat, fd1: nat)
    ensures Inv(Init(nprocs, p, fd0, fd1))
  {
  }

  // ----- what one call does

  /* pipewrite stores bytes until none is left or the pipe is full.  Then it returns: with its
     length if none is left; with -1 if some are and nobody can read them, or the caller is
     killed; otherwise it wakes the readers and sleeps. */
  lemma WriteReturns(s: State, p: nat, killed: bool)
    requires Inv(s) && Enabled(s, RunWriter(p, killed))
    ensures var w, s' := s.procs[p], Apply(s, RunWriter(p, killed));
            && s.stored <= s'.stored && s'.taken == s.taken
            && var i' := w.i + |s'.stored| - |s.stored|;
            && i' <= |w.src| && s'.stored == s.stored + w.src[w.i..i']
            && if i' == |w.src| then
                 s'.procs == s.procs[p := Idle] && s'.results == s.results + [Wrote(w.id, w.src, true)]
                 && s'.rsleep == {} && s'.wsleep == s.wsleep
               else
                 && |s'.stored| == s'.taken + PIPESIZE
                 && if !s.readopen || killed then
                      s'.procs == s.procs[p := Idle] && s'.results == s.results + [Wrote(w.id, w.src, false)]
                      && s'.rsleep == s.rsleep && s'.wsleep == s.wsleep
                    else
                      s'.procs == s.procs[p := Writing(w.id, w.fd, w.src, i')] && s'.results == s.results
                      && s'.rsleep == {} && s'.wsleep == s.wsleep + {p}
  {
    hide WritesOk;
    hide ReadsOk;
    hide EndsOk;
  }

  /* piperead on an empty pipe with writers fails if the caller is killed and sleeps if not;
     otherwise it returns the oldest bytes, n of them or all there are, and wakes the
     writers. */
  lemma ReadReturns(s: State, p: nat, killed: bool)
    requires Inv(s) && Enabled(s, RunReader(p, killed))
    ensures var n, s' := s.procs[p].n, Apply(s, RunReader(p, killed));
            && s'.stored == s.stored
            && if |s.stored| == s.taken && s.writeopen then
                 && s'.taken == s.taken && s'.out == s.out && s'.wsleep == s.wsleep
                 && if killed then
                      s'.procs == s.procs[p := Idle] && s'.results == s.results + [ReadBytes(n, [], false, false)]
                      && s'.rsleep == s.rsleep
                    else
                      s'.procs == s.procs && s'.results == s.results && s'.rsleep == s.rsleep + {p}
               else
                 && s.taken <= s'.taken <= |s.stored| && s'.taken <= s.taken + n
                 && (s'.taken == s.taken + n || s'.taken == |s.stored|)
                 && var got := s.stored[s.taken..s'.taken];
                 && s'.out == s.out + got && s'.procs == s.procs[p := Idle] && s'.wsleep == {} && s'.rsleep == s.rsleep
                 && |s'.results| == |s.results| + 1 && s'.results[|s.results|].ReadBytes?
                 && s'.results[|s.results|].out == got && s'.results[|s.results|].ok
  {
    hide WritesOk;
    hide ReadsOk;
    hide EndsOk;
  }

  // ----- who sleeps, and whether somebody will wake them

  /* A sleeping writer has nothing to do: the pipe is full and has readers. */
  ghost predicate WritersRest(s: State) {
    s.wsleep != {} ==> |s.stored| == s.taken + PIPESIZE && s.readopen
  }

  /* A sleeping reader has nothing to do: the pipe is empty and has writers. */
  ghost predicate ReadersRest(s: State) {
    s.rsleep != {} ==> |s.stored| == s.taken && s.writeopen
  }

  /* A killed writer gives up after storing bytes, while a reader sleeps. */
  predicate LeavesSleeper(s: State, a: Action) {
    && a.RunWriter? && Enabled(s, a) && s.rsleep != {}
    && var w := s.procs[a.p];
       var m := WriterTakes(|s.stored|, s.taken, |w.src| - w.i);
       m > 0 && WriterEnds(|w.src| - w.i, m, s.readopen, a.killed) == Fails
  }

  lemma WritersKeepResting(s: State, a: Action)
    requires Inv(s) && Enabled(s, a) && WritersRest(s)
    ensures WritersRest(Apply(s, a))
  {
    hide WritesOk;
    hide ReadsOk;
    hide Writer;
    hide Reader;
    hide Closed;
    match a
    case RunWriter(p, killed) => WriterRests(s, p, killed);
    case RunReader(p, killed) => ReaderRests(s, p, killed);
    case CloseFd(p, fd, writable) => CloserRests(s, p, fd, writable);
    case _ =>
  }

  lemma WriterRests(s: State, p: nat, killed: bool)
    requires DataOk(s) && Enabled(s, RunWriter(p, killed)) && WritersRest(s)
    ensures WritersRest(Writer(s, p, killed))
  {
  }

  lemma ReaderRests(s: State, p: nat, killed: bool)
    requires DataOk(s) && Enabled(s, RunReader(p, killed)) && WritersRest(s)
    ensures WritersRest(Reader(s, p, killed))
  {
  }

  lemma CloserRests(s: State, p: nat, fd: nat, writable: bool)
    requires WritersRest(s)
    ensures WritersRest(Closed(s, p, fd, writable))
  {
  }

  /* piperead's wakeup is never missed; pipewrite's is exactly when it fails after storing:
     that return does not wake the readers. */
  lemma ReadersExact(s: State, a: Action)
    requires Inv(s) && Enabled(s, a) && ReadersRest(s)
    ensures ReadersRest(Apply(s, a)) <==> !LeavesSleeper(s, a)
  {
    hide WritesOk;
    hide ReadsOk;
    hide Writer;
    hide Reader;
    hide Closed;
    match a
    case RunWriter(p, killed) => WriterLeaves(s, p, killed);
    case RunReader(p, killed) => ReaderWaits(s, p, killed);
    case CloseFd(p, fd, writable) => CloserWakes(s, p, fd, writable);
    case _ =>
  }

  lemma WriterLeaves(s: State, p: nat, killed: bool)
    requires DataOk(s) && Enabled(s, RunWriter(p, killed)) && ReadersRest(s)
    ensures ReadersRest(Writer(s, p, killed)) <==> !LeavesSleeper(s, RunWriter(p, killed))
  {
  }

  lemma ReaderWaits(s: State, p: nat, killed: bool)
    requires DataOk(s) && Enabled(s, RunReader(p, killed)) && ReadersRest(s)
    ensures ReadersRest(Reader(s, p, killed))
  {
  }

  lemma CloserWakes(s: State, p: nat, fd: nat, writable: bool)
    requires ReadersRest(s)
    ensures ReadersRest(Closed(s, p, fd, writable))
  {
  }

  predicate NoneLeft(s: State, acts: seq<Action>)
    requires Runs(s, acts)
    decreases |acts|
  {
    acts == [] || (!LeavesSleeper(s, acts[0]) && NoneLeft(Apply(s, acts[0]), acts[1..]))
  }

  lemma {:induction false} WritersRun(s: State, acts: seq<Action>)
    requires Inv(s) && Runs(s, acts) && WritersRest(s)
    ensures WritersRest(Final(s, acts))
    decreases |acts|
  {
    hide Inv;
    hide Enabled;
    hide Apply;
    hide WritersRest;
    if acts != [] {
      StepKeeps(s, acts[0]);
      WritersKeepResting(s, acts[0]);
      WritersRun(Apply(s, acts[0]), acts[1..]);
    }
  }

  lemma {:induction false} ReadersRun(s: State, acts: seq<Action>)
    requires Inv(s) && Runs(s, acts) && NoneLeft(s, acts) && ReadersRest(s)
    ensures ReadersRest(Final(s, acts))
    decreases |acts|
  {
    hide Inv;
    hide Enabled;
    hide Apply;
    hide LeavesSleeper;
    hide ReadersRest;
    if acts != [] {
      StepKeeps(s, acts[0]);
      ReadersExact(s, acts[0]);
      ReadersRun(Apply(s, acts[0]), acts[1..]);
    }
  }

  /* In every run no writer sleeps beside free room, and no reader sleeps beside bytes
     unless some killed writer has given up after storing. */
  lemma NobodyForgotten(nprocs: nat, p: nat, fd0: nat, fd1: nat, acts: seq<Action>)
    requires Runs(Init(nprocs, p, fd0, fd1), acts)
    ensures var s0 := Init(nprocs, p, fd0, fd1);
            WritersRest(Final(s0, acts)) && (NoneLeft(s0, acts) ==> ReadersRest(Final(s0, acts)))
  {
    var s0 := Init(nprocs, p, fd0, fd1);
    InitOk(nprocs, p, fd0, fd1);
    WritersRun(s0, acts);
    if NoneLeft(s0, acts) {
      ReadersRun(s0, acts);
    }
  }

  lemma OneStep(s: State, a: Action, rest: seq<Action>)
    requires Enabled(s, a) && Runs(Apply(s, a), rest)
    ensures Runs(s, [a] + rest) && Final(s, [a] + rest) == Final(Apply(s, a), rest)
  {
    hide Enabled;
    hide Apply;
    assert ([a] + rest)[1..] == rest;
  }

  /* Such a run: process 0 sleeps in piperead, process 1 is killed while it writes 513
     bytes, and 512 bytes are left in the pipe with the reader asleep. */
  lemma ForgottenReader()
    ensures var a0, a1, a2, a3, a4 := Dup(0, 4, 1, 4, true), StartRead(0, 3, 1), RunReader(0, false),
                                      StartWrite(1, 4, seq(PIPESIZE + 1, i => 0)), RunWriter(1, true);
            var s0, acts := Init(2, 0, 3, 4), [a0] + ([a1] + ([a2] + ([a3] + ([a4] + []))));
            Runs(s0, acts)
            && var s := Final(s0, acts); s.rsleep == {0} && |s.stored| == PIPESIZE && s.taken == 0 && !ReadersRest(s)
  {
    var a0, a1, a2, a3, a4 := Dup(0, 4, 1, 4, true), StartRead(0, 3, 1), RunReader(0, false),
                              StartWrite(1, 4, seq(PIPESIZE + 1, i => 0)), RunWriter(1, true);
    var s0 := Init(2, 0, 3, 4);
    assert Enabled(s0, a0);
    var s1 := Apply(s0, a0);
    assert Enabled(s1, a1);
    var s2 := Apply(s1, a1);
    assert Enabled(s2, a2);
    var s3 := Apply(s2, a2);
    assert s3.rsleep == {0} && s3.procs[1] == Idle && Enabled(s3, a3);
    var s4 := Apply(s3, a3);
    assert Enabled(s4, a4);
    var s5 := Apply(s4, a4);
    OneStep(s4, a4, []);
    OneStep(s3, a3, [a4] + []);
    OneStep(s2, a2, [a3] + ([a4] + []));
    OneStep(s1, a1, [a2] + ([a3] + ([a4] + [])));
    OneStep(s0, a0, [a1] + ([a2] + ([a3] + ([a4] + []))));
  }
}
