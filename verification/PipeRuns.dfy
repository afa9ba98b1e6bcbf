// Whole runs of pipe.c: any readers and writers of one pipe, with p->lock
// released only in sleep() and on return.
module PipeRuns {
  import opened Blocks
  import opened PipeRing

  // A process: its place in pipewrite() (bytes addr, the first i of them in
  // the pipe) or in piperead() (asked for n bytes).
  datatype Proc =
    | Outside
    | Writing(addr: seq<Byte>, i: nat, asleep: bool)
    | Reading(n: nat, asleep: bool)

  // written and taken are the bytes that went into and came out of the pipe.
  datatype Sys = Sys(
    ring: Ring,
    readopen: bool,
    writeopen: bool,
    procs: seq<Proc>,
    killed: seq<bool>,
    written: seq<Byte>,
    taken: seq<Byte>)

  datatype Step =
    | StartWrite(p: nat, addr: seq<Byte>)
    | StartRead(p: nat, n: nat)
    | Go(p: nat)                 // p runs until it sleeps or returns
    | CloseRead
    | CloseWrite
    | Kill(p: nat)

  // wakeup(&p->nread) and wakeup(&p->nwrite)
  function WakeOne(x: Proc, readers: bool, writers: bool): Proc {
    if x.Reading? && readers then Reading(x.n, false)
    else if x.Writing? && writers then Writing(x.addr, x.i, false)
    else x
  }

  function Wake(procs: seq<Proc>, readers: bool, writers: bool): (r: seq<Proc>)
    ensures |r| == |procs| && forall i | 0 <= i < |procs| :: r[i] == WakeOne(procs[i], readers, writers)
  {
    seq(|procs|, i requires 0 <= i < |procs| => WakeOne(procs[i], readers, writers))
  }

  predicate Shape(s: Sys) {
    Ok(s.ring) && |s.killed| == |s.procs|
  }

  // An end is closed when no process has it open, so none is using it.
  predicate Enabled(s: Sys, t: Step) {
    && Shape(s)
    && match t
       case StartWrite(p, _) => p < |s.procs| && s.procs[p].Outside? && s.writeopen
       case StartRead(p, _) => p < |s.procs| && s.procs[p].Outside? && s.readopen
       case Go(p) => p < |s.procs| && Ready(s.procs[p])
       case CloseRead => s.readopen && forall p | 0 <= p < |s.procs| :: !s.procs[p].Reading?
       case CloseWrite => s.writeopen && forall p | 0 <= p < |s.procs| :: !s.procs[p].Writing?
       case Kill(p) => p < |s.procs|
  }

  predicate Ready(x: Proc) {
    match x
    case Outside => false
    case Writing(addr, i, asleep) => !asleep && i <= |addr|
    case Reading(_, asleep) => !asleep
  }

  // pipewrite() from where it is: fill the pipe, then return or sleep.
  function DoWrite(s: Sys, p: nat): Sys
    requires Enabled(s, Go(p)) && s.procs[p].Writing?
  {
    var x := s.procs[p];
    var m := Min(|x.addr| - x.i, PIPESIZE - Count(s.ring));
    var bytes := x.addr[x.i..x.i + m];
    var s1 := s.(ring := PutAll(s.ring, bytes), written := s.written + bytes);
    if x.i + m == |x.addr| then
      s1.(procs := Wake(s.procs, true, false)[p := Outside])
    else if !s.readopen || s.killed[p] then
      s1.(procs := s.procs[p := Outside])
    else
      s1.(procs := Wake(s.procs, true, false)[p := Writing(x.addr, x.i + m, true)])
  }

  // piperead() from where it is.
  function DoRead(s: Sys, p: nat): Sys
    requires Enabled(s, Go(p)) && s.procs[p].Reading?
  {
    var x := s.procs[p];
    if Empty(s.ring) && s.writeopen then
      if s.killed[p] then s.(procs := s.procs[p := Outside])
      else s.(procs := s.procs[p := Reading(x.n, true)])
    else
      var m := Min(x.n, Count(s.ring));
      s.(ring := Drop(s.ring, m), taken := s.taken + Stored(s.ring)[..m],
         procs := Wake(s.procs, false, true)[p := Outside])
  }

  function Next(s: Sys, t: Step): Sys {
    if !Enabled(s, t) then s else
      match t
      case StartWrite(p, addr) => s.(procs := s.procs[p := Writing(addr, 0, false)])
      case StartRead(p, n) => s.(procs := s.procs[p := Reading(n, false)])
      case Go(p) => if s.procs[p].Writing? then DoWrite(s, p) else DoRead(s, p)
      case CloseRead => s.(readopen := false, procs := Wake(s.procs, false, true))
      case CloseWrite => s.(writeopen := false, procs := Wake(s.procs, true, false))
      case Kill(p) => s.(killed := s.killed[p := true], procs := s.procs[p := WakeOne(s.procs[p], true, true)])
  }

  function Run(s: Sys, ts: seq<Step>): Sys {
    if ts == [] then s else Next(Run(s, ts[..|ts| - 1]), ts[|ts| - 1])
  }

  // pipealloc() has made the pipe; the counters may stand anywhere.
  predicate Init(s: Sys) {
    && Shape(s) && Empty(s.ring) && s.readopen && s.writeopen && s.written == [] && s.taken == []
    && (forall p | 0 <= p < |s.procs| :: s.procs[p].Outside? && !s.killed[p])
  }

  // ---- Bytes ----

  predicate BytesOk(s: Sys) {
    Shape(s) && s.written == s.taken + Stored(s.ring)
  }

  lemma WriteBytes(s: Sys, p: nat)
    requires BytesOk(s) && Enabled(s, Go(p)) && s.procs[p].Writing?
    ensures BytesOk(DoWrite(s, p))
  {
    hide Stored, Count;
    var x := s.procs[p];
    var m := Min(|x.addr| - x.i, PIPESIZE - Count(s.ring));
    PutAllStored(s.ring, x.addr[x.i..x.i + m]);
    assert s.taken + Stored(s.ring) + x.addr[x.i..x.i + m] == s.taken + (Stored(s.ring) + x.addr[x.i..x.i + m]);
  }

  lemma ReadBytes(s: Sys, p: nat)
    requires BytesOk(s) && Enabled(s, Go(p)) && s.procs[p].Reading?
    ensures BytesOk(DoRead(s, p))
  {
    hide Stored, Count;
    if !(Empty(s.ring) && s.writeopen) {
      var m := Min(s.procs[p].n, Count(s.ring));
      DropStored(s.ring, m);
      FirstStored(s.ring);
      assert Stored(s.ring) == Stored(s.ring)[..m] + Stored(s.ring)[m..];
    }
  }

  lemma NextBytes(s: Sys, t: Step)
    requires BytesOk(s)
    ensures BytesOk(Next(s, t))
  {
    if Enabled(s, t) && t.Go? {
      if s.procs[t.p].Writing? { WriteBytes(s, t.p); } else { ReadBytes(s, t.p); }
    }
  }

  lemma {:induction false} RunBytes(s: Sys, ts: seq<Step>)
    requires Init(s)
    ensures BytesOk(Run(s, ts))
  {
    if ts == [] {
      CountTests(s.ring);
      assert Stored(s.ring) == [];
    } else {
      RunBytes(s, ts[..|ts| - 1]);
      NextBytes(Run(s, ts[..|ts| - 1]), ts[|ts| - 1]);
    }
  }

  // What has been read is a prefix of what has been written, at most
  // PIPESIZE bytes behind, however often the counters have wrapped.
  lemma ReadsArePrefix(s: Sys, ts: seq<Step>)
    requires Init(s)
    ensures var s' := Run(s, ts);
      && s'.taken <= s'.written && |s'.written| - |s'.taken| <= PIPESIZE
      && (s'.ring.nwrite - s'.ring.nread) % WRAP == |s'.written| - |s'.taken|
  {
    RunBytes(s, ts);
  }

  // What one turn of a writer does: the next of its bytes, as many as there
  // is room for, go behind those in the pipe, and it returns if that was all
  // or there is no point in waiting, and else sleeps.
  lemma WriterGoes(s: Sys, p: nat)
    requires Enabled(s, Go(p)) && s.procs[p].Writing?
    ensures var x, s', room := s.procs[p], Next(s, Go(p)), 512 - |Stored(s.ring)|;
      var left := x.addr[x.i..];
      var m := if |left| < room then |left| else room;
      && room >= 0 && Shape(s') && |s'.procs| == |s.procs|
      && Stored(s'.ring) == Stored(s.ring) + left[..m]
      && s'.written == s.written + left[..m] && s'.taken == s.taken
      && s'.procs[p] == (if m == |left| || !s.readopen || s.killed[p] then Outside
                         else Writing(x.addr, x.i + m, true))
  {
    hide Stored, Count, PutAll, Empty, Full, Drop;
    var x := s.procs[p];
    var m := Min(|x.addr| - x.i, PIPESIZE - Count(s.ring));
    PutAllStored(s.ring, x.addr[x.i..x.i + m]);
    FirstStored(s.ring);
    assert x.addr[x.i..][..m] == x.addr[x.i..x.i + m];
  }

  // One turn of a reader: it waits for bytes only if there are none and
  // there may yet be some, and it has not been killed; it takes the oldest.
  lemma ReaderGoes(s: Sys, p: nat)
    requires Enabled(s, Go(p)) && s.procs[p].Reading?
    ensures var x, s', st := s.procs[p], Next(s, Go(p)), Stored(s.ring);
      var k := if |st| < x.n then |st| else x.n;
      && Shape(s') && |s'.procs| == |s.procs|
      && Stored(s'.ring) == st[k..] && s'.taken == s.taken + st[..k] && s'.written == s.written
      && s'.procs[p] == (if st == [] && s.writeopen && !s.killed[p] then Reading(x.n, true) else Outside)
  {
    hide Stored, Count, Drop;
    CountTests(s.ring);
    FirstStored(s.ring);
    DropStored(s.ring, Min(s.procs[p].n, Count(s.ring)));
  }

  // Over every run: a process that was killed at some time is marked, is not
  // asleep, and its next turn is its last.
  predicate KilledAwake(s: Sys) {
    Shape(s) && forall p | 0 <= p < |s.procs| && s.killed[p] :: !Asleep(s.procs[p])
  }

  predicate Asleep(x: Proc) {
    (x.Reading? && x.asleep) || (x.Writing? && x.asleep)
  }

  lemma {:induction false} KilledReturns(s: Sys, ts: seq<Step>, p: nat)
    requires Init(s) && p < |s.procs|
    ensures var s' := Run(s, ts);
      && KilledAwake(s') && |s'.procs| == |s.procs|
      && (Kill(p) in ts ==> s'.killed[p])
      && (s'.killed[p] && !s'.procs[p].Outside? && Enabled(s', Go(p)) ==> Next(s', Go(p)).procs[p] == Outside)
  {
    if ts != [] {
      var n := |ts| - 1;
      KilledReturns(s, ts[..n], p);
      assert ts == ts[..n] + [ts[n]];
      StepKilled(Run(s, ts[..n]), ts[n]);
    }
    var s' := Run(s, ts);
    if Enabled(s', Go(p)) {
      if s'.procs[p].Writing? { WriterGoes(s', p); } else { ReaderGoes(s', p); }
    }
  }

  lemma StepKilled(s: Sys, t: Step)
    requires KilledAwake(s)
    ensures KilledAwake(Next(s, t)) && |Next(s, t).procs| == |s.procs|
    ensures forall p | 0 <= p < |s.killed| :: Next(s, t).killed[p] == (s.killed[p] || t == Kill(p))
  {
    hide Stored, Count, Drop;
    if Enabled(s, t) && t.Go? {
      if s.procs[t.p].Writing? { WriterGoes(s, t.p); } else { ReaderGoes(s, t.p); }
    }
  }

  // ---- Sleepers ----

  // A sleeping reader means an empty pipe, a sleeping writer a full one,
  // and a closed end has no user.
  predicate SleeperOk(s: Sys, x: Proc) {
    match x
    case Outside => true
    case Reading(_, asleep) => s.readopen && (asleep ==> Empty(s.ring) && s.writeopen)
    case Writing(addr, i, asleep) =>
      i <= |addr| && s.writeopen && (asleep ==> Full(s.ring) && s.readopen)
  }

  predicate SleepersOk(s: Sys) {
    Shape(s) && forall p | 0 <= p < |s.procs| :: SleeperOk(s, s.procs[p])
  }

  // A killed writer fills the pipe and returns early, without waking the
  // readers.
  predicate LosesWakeup(s: Sys, t: Step) {
    && Enabled(s, t) && t.Go? && s.procs[t.p].Writing? && s.killed[t.p]
    && |s.procs[t.p].addr| - s.procs[t.p].i > PIPESIZE
    && exists q | 0 <= q < |s.procs| :: AsleepReading(s.procs[q])
  }

  predicate AsleepReading(x: Proc) {
    x.Reading? && x.asleep
  }

  lemma WriteSleepers(s: Sys, p: nat)
    requires SleepersOk(s) && Enabled(s, Go(p)) && s.procs[p].Writing?
    ensures SleepersOk(DoWrite(s, p)) <==> !LosesWakeup(s, Go(p))
  {
    var x, s' := s.procs[p], DoWrite(s, p);
    var m := Min(|x.addr| - x.i, PIPESIZE - Count(s.ring));
    CountTests(s.ring);
    PutAllStored(s.ring, x.addr[x.i..x.i + m]);
    CountTests(s'.ring);
    assert SleeperOk(s, x);
    if LosesWakeup(s, Go(p)) {
      var q :| 0 <= q < |s.procs| && AsleepReading(s.procs[q]);
      assert SleeperOk(s, s.procs[q]);
      assert !SleeperOk(s', s'.procs[q]);
    } else {
      forall q | 0 <= q < |s.procs| ensures SleeperOk(s', s'.procs[q]) {
        assert SleeperOk(s, s.procs[q]);
        assert AsleepReading(s.procs[q]) ==> Empty(s.ring);
      }
    }
  }

  lemma ReadSleepers(s: Sys, p: nat)
    requires SleepersOk(s) && Enabled(s, Go(p)) && s.procs[p].Reading?
    ensures SleepersOk(DoRead(s, p))
  {
    var x, s' := s.procs[p], DoRead(s, p);
    CountTests(s.ring);
    if !(Empty(s.ring) && s.writeopen) { DropStored(s.ring, Min(x.n, Count(s.ring))); }
    forall q | 0 <= q < |s.procs| ensures SleeperOk(s', s'.procs[q]) {
      assert SleeperOk(s, s.procs[q]);
    }
  }

  // A step keeps the sleepers right if and only if it is not such a
  // writer's.
  lemma NextSleepers(s: Sys, t: Step)
    requires SleepersOk(s)
    ensures SleepersOk(Next(s, t)) <==> !LosesWakeup(s, t)
  {
    if Enabled(s, t) && t.Go? {
      if s.procs[t.p].Writing? { WriteSleepers(s, t.p); } else { ReadSleepers(s, t.p); }
    } else {
      var s' := Next(s, t);
      forall q | 0 <= q < |s'.procs| ensures SleeperOk(s', s'.procs[q]) {
        assert SleeperOk(s, s.procs[q]);
      }
    }
  }

  lemma {:induction false} NobodyKilled(s: Sys, ts: seq<Step>)
    requires Init(s) && forall i | 0 <= i < |ts| :: !ts[i].Kill?
    ensures var s' := Run(s, ts); |s'.killed| == |s.killed| && forall p | 0 <= p < |s'.killed| :: !s'.killed[p]
  {
    if ts != [] { NobodyKilled(s, ts[..|ts| - 1]); }
  }

  // With no kills, sleeping readers mean an empty pipe and sleeping writers
  // a full one.
  lemma {:induction false} SleepersWait(s: Sys, ts: seq<Step>)
    requires Init(s) && forall i | 0 <= i < |ts| :: !ts[i].Kill?
    ensures SleepersOk(Run(s, ts))
  {
    if ts != [] {
      SleepersWait(s, ts[..|ts| - 1]);
      NobodyKilled(s, ts[..|ts| - 1]);
      NextSleepers(Run(s, ts[..|ts| - 1]), ts[|ts| - 1]);
    }
  }

  // So reader and writer are never both asleep.
  lemma NoDeadlock(s: Sys, ts: seq<Step>, p: nat, q: nat)
    requires Init(s) && forall i | 0 <= i < |ts| :: !ts[i].Kill?
    requires var s' := Run(s, ts);
      p < |s'.procs| && q < |s'.procs| && s'.procs[p].Reading? && s'.procs[q].Writing?
    ensures var s' := Run(s, ts); !(s'.procs[p].asleep && s'.procs[q].asleep)
  {
    SleepersWait(s, ts);
    var s' := Run(s, ts);
    assert SleeperOk(s', s'.procs[p]) && SleeperOk(s', s'.procs[q]);
    CountTests(s'.ring);
  }

  // ---- A kill loses the wakeup ----

  // A reader sleeps, a writer of more than a pipeful is killed.
  function Lost(addr: seq<Byte>): seq<Step> {
    [StartRead(0, 1), Go(0), StartWrite(1, addr), Kill(1), Go(1)]
  }

  lemma ReaderAsleep(s: Sys)
    requires Init(s) && |s.procs| >= 2
    ensures Run(s, [StartRead(0, 1), Go(0)]) == s.(procs := s.procs[0 := Reading(1, true)])
  {
    var ts := [StartRead(0, 1), Go(0)];
    assert ts[..1] == [StartRead(0, 1)] && ts[..1][..0] == [];
    assert Run(s, ts[..1]) == s.(procs := s.procs[0 := Reading(1, false)]);
  }

  lemma WriterStarts(s: Sys, addr: seq<Byte>)
    requires Init(s) && |s.procs| >= 2
    ensures Run(s, Lost(addr)[..3]) == s.(procs := s.procs[0 := Reading(1, true)][1 := Writing(addr, 0, false)])
  {
    ReaderAsleep(s);
    assert Lost(addr)[..3][..2] == [StartRead(0, 1), Go(0)];
  }

  lemma WriterKilled(s: Sys, addr: seq<Byte>)
    requires Init(s) && |s.procs| >= 2
    ensures Run(s, Lost(addr)[..4]) ==
              s.(procs := s.procs[0 := Reading(1, true)][1 := Writing(addr, 0, false)], killed := s.killed[1 := true])
  {
    WriterStarts(s, addr);
    assert Lost(addr)[..4][..3] == Lost(addr)[..3];
    var procs := s.procs[0 := Reading(1, true)][1 := Writing(addr, 0, false)];
    assert procs[1 := WakeOne(procs[1], true, true)] == procs;
  }

  lemma KillLosesWakeup(s: Sys, addr: seq<Byte>)
    requires Init(s) && |s.procs| >= 2 && |addr| > PIPESIZE
    ensures var s' := Run(s, Lost(addr)); |s'.procs| >= 2 && AsleepReading(s'.procs[0]) && Full(s'.ring)
  {
    WriterKilled(s, addr);
    var u := Run(s, Lost(addr)[..4]);
    assert AsleepReading(u.procs[0]);
    CountTests(s.ring);
    PutAllStored(s.ring, addr[0..PIPESIZE]);
    CountTests(PutAll(s.ring, addr[0..PIPESIZE]));
  }
}
