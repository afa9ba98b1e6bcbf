// The promises of log.c over whole runs.
module LogTheorems {
  import opened Blocks
  import opened LogFormat
  import opened LogRuns
  import opened LogSafety
  import opened LogDevice

  lemma LoadEvictInv(st: Store, dev: Dev)
    requires StoreInv(st)
    requires dev.disk == st.dev.disk
    requires forall b | b in dev.cache && b !in st.dev.cache ::
               b < |dev.disk| && dev.cache[b] == Buf(dev.disk[b], false)
    requires forall b | b in dev.cache && b in st.dev.cache :: dev.cache[b] == st.dev.cache[b]
    requires forall b | b in st.dev.cache && b !in dev.cache :: !st.dev.cache[b].dirty
    ensures StoreInv(st.(dev := dev))
  {
    var st' := st.(dev := dev);
    assert After(st') == After(st) && Before(st') == Before(st);
    assert Pinned(dev, st.lh, After(st), PinFrom(st));
  }

  lemma CacheStepInv(s: Sys, t: Step)
    requires Inv(s) && Enabled(s, t) && (t.LoadBlock? || t.Evict?)
    ensures Inv(Next(s, t))
  {
    hide CacheInv, DiskInv;
    LoadEvictInv(s.st, Next(s, t).st.dev);
  }

  lemma NextInv(s: Sys, t: Step)
    requires Inv(s)
    ensures Inv(Next(s, t))
  {
    hide CacheInv, DiskInv;
    if Enabled(s, t) {
      match t
      case BeginOp(p) => BeginInv(s, p);
      case LogWrite(p, b, data) => LogWriteInv(s, p, b, data);
      case EndOp(p) => EndInv(s, p);
      case BlockWrite => WriteInv(s.st);
      case Finish => FinishInv(s);
      case LoadBlock(b) => CacheStepInv(s, t);
      case Evict(b) => CacheStepInv(s, t);
      case Crash => CrashInv(s);
    }
  }

  lemma NextFixed(s: Sys, t: Step)
    ensures Next(s, t).st.L == s.st.L && Next(s, t).st.base == s.st.base
  {
  }

  lemma {:induction false} RunInv(s: Sys, ts: seq<Step>)
    requires Inv(s)
    ensures Inv(Run(s, ts))
    ensures Run(s, ts).st.L == s.st.L && Run(s, ts).st.base == s.st.base
  {
    if ts != [] {
      RunInv(s, ts[..|ts| - 1]);
      NextInv(Run(s, ts[..|ts| - 1]), ts[|ts| - 1]);
      NextFixed(Run(s, ts[..|ts| - 1]), ts[|ts| - 1]);
    }
  }

  // A state that some run from some boot reaches; base is then the file
  // system that boot found.
  ghost predicate Reachable(s: Sys) {
    exists L: Layout, d: Disk, nproc: nat, ts: seq<Step> ::
      GoodDisk(L, d) && s == Run(Boot(L, d, nproc), ts)
  }

  lemma ReachableInv(s: Sys)
    requires Reachable(s)
    ensures Inv(s)
  {
    var L: Layout, d: Disk, nproc: nat, ts: seq<Step> :|
      GoodDisk(L, d) && s == Run(Boot(L, d, nproc), ts);
    BootInv(L, d, nproc);
    RunInv(Boot(L, d, nproc), ts);
  }

  // ---- Crash atomicity ----

  lemma DiskHolds(st: Store)
    requires StoreInv(st)
    ensures GoodDisk(st.L, st.dev.disk)
    ensures Holds(st.L, st.dev.disk, ApplyGroups(st.base, Durable(st)))
  {
    RebootInv(st);
    var st' := Reboot(st);
    assert st'.base == st.base && st'.done == Durable(st) && After(st') == Before(st');
  }

  // Crash at any moment of any run and recover: what is found is the file
  // system after the durable group commits, whole and in order.
  lemma RecoveredIsPrefixOfCommits(s: Sys)
    requires Reachable(s)
    ensures GoodDisk(s.st.L, s.st.dev.disk)
    ensures SameHome(s.st.L, Recovered(s.st.L, s.st.dev.disk), ApplyGroups(s.st.base, Durable(s.st)))
  {
    ReachableInv(s);
    DiskHolds(s.st);
    HoldsRecovered(s.st.L, s.st.dev.disk, ApplyGroups(s.st.base, Durable(s.st)));
  }

  // No step, crashes included, undoes a durable commit.
  lemma DurableGrows(s: Sys, t: Step)
    requires Inv(s)
    ensures Durable(s.st) <= Durable(Next(s, t).st)
  {
  }

  lemma {:induction false} CommitsAreNeverLost(s: Sys, ts: seq<Step>)
    requires Inv(s)
    ensures Durable(s.st) <= Durable(Run(s, ts).st)
  {
    if ts != [] {
      CommitsAreNeverLost(s, ts[..|ts| - 1]);
      RunInv(s, ts[..|ts| - 1]);
      DurableGrows(Run(s, ts[..|ts| - 1]), ts[|ts| - 1]);
    }
  }

  predicate RecoveryOnly(t: Step) {
    t.BlockWrite? || t.Crash? || t.Finish? || t.LoadBlock? || t.Evict?
  }

  // Crashed and completed recoveries add no group and drop none.
  lemma RecoveryStepKeeps(s: Sys, t: Step)
    requires (s.st.pc.Quiet? || s.st.pc.recovering) && RecoveryOnly(t)
    ensures var s' := Next(s, t); (s'.st.pc.Quiet? || s'.st.pc.recovering) && s'.st.done == s.st.done
  {
  }

  lemma {:induction false} RecoveryKeepsDurable(s: Sys, ts: seq<Step>)
    requires Inv(s) && (s.st.pc.Quiet? || s.st.pc.recovering)
    requires forall i | 0 <= i < |ts| :: RecoveryOnly(ts[i])
    ensures var s' := Run(s, ts);
            && (s'.st.pc.Quiet? || s'.st.pc.recovering)
            && Durable(s'.st) == Durable(s.st) == s.st.done
  {
    hide Inv, Next;
    if ts != [] {
      var s1 := Run(s, ts[..|ts| - 1]);
      RecoveryKeepsDurable(s, ts[..|ts| - 1]);
      RecoveryStepKeeps(s1, ts[|ts| - 1]);
    }
  }

  // About to do the k-th write of a commit.
  ghost predicate InCommit(s: Sys, k: nat) {
    && DevOk(s.st.L, s.st.dev, s.st.lh) && s.panic.NoPanic?
    && s.st.pc == Busy(k, false) && s.st.lh != []
  }

  lemma OneMoreWrite(s: Sys, k: nat)
    requires InCommit(s, k) && k < 2 * |s.st.lh| + 2
    ensures var d := WriteStep(s.st.L, s.st.dev, s.st.lh, k);
            && DevOk(s.st.L, d, s.st.lh)
            && Next(s, BlockWrite) == s.(st := s.st.(dev := d, pc := Busy(k + 1, false)))
  {
  }

  lemma {:induction false} WritesRun(s: Sys, k: nat)
    requires InCommit(s, 0) && k <= 2 * |s.st.lh| + 2
    ensures var s' := Run(s, seq(k, _ => BlockWrite));
            && s' == s.(st := s.st.(dev := s'.st.dev, pc := Busy(k, false)))
            && DevOk(s.st.L, s'.st.dev, s.st.lh)
  {
    hide Next, WriteStep;
    if k > 0 {
      var ts := seq(k - 1, _ => BlockWrite);
      WritesRun(s, k - 1);
      OneMoreWrite(Run(s, ts), k - 1);
      RunAppend(s, ts, BlockWrite);
      assert seq(k, _ => BlockWrite) == ts + [BlockWrite];
    }
  }

  // The devices that LogDevice.Log.Commit goes through are those of the run.
  lemma {:induction false} CommitIsRun(s: Sys, ds: seq<Dev>, k: nat)
    requires InCommit(s, 0)
    requires Chain(s.st.L, s.st.lh, ds, 0) && ds[0] == s.st.dev && k < |ds|
    ensures Run(s, seq(k, _ => BlockWrite)).st.dev == ds[k]
  {
    hide Next, WriteStep;
    if k > 0 {
      var ts := seq(k - 1, _ => BlockWrite);
      CommitIsRun(s, ds, k - 1);
      WritesRun(s, k - 1);
      OneMoreWrite(Run(s, ts), k - 1);
      RunAppend(s, ts, BlockWrite);
      assert seq(k, _ => BlockWrite) == ts + [BlockWrite];
      assert Follows(s.st.L, s.st.lh, ds, 0, k - 1);
    }
  }

  // The state after k of the 2n + 2 block writes of commit(), a crash, and
  // then any number of recoveries that crash at any point.
  ghost function CrashedCommit(s: Sys, k: nat, ts: seq<Step>): Sys {
    Run(Next(Run(s, seq(k, _ => BlockWrite)), Crash), ts)
  }

  lemma CrashKeeps(s: Sys)
    requires Inv(s)
    ensures var st := Next(s, Crash).st; st.done == Durable(s.st) && st.pc.Busy? && st.pc.recovering
  {
  }

  lemma CrashedCommitState(s: Sys, k: nat, ts: seq<Step>)
    requires Inv(s) && InCommit(s, 0)
    requires k <= 2 * |s.st.lh| + 2
    requires forall i | 0 <= i < |ts| :: RecoveryOnly(ts[i])
    ensures var st := CrashedCommit(s, k, ts).st;
            && StoreInv(st) && st.L == s.st.L && st.base == s.st.base
            && (st.pc.Busy? ==> st.pc.recovering)
            && st.done == if k <= |s.st.lh| then s.st.done else s.st.done + [s.st.current]
  {
    hide Run, CacheInv, DiskInv, OpsInv, HistInv;
    var ws := seq(k, _ => BlockWrite);
    WritesRun(s, k);
    RunInv(s, ws);
    var s1 := Run(s, ws);
    NextInv(s1, Crash);
    NextFixed(s1, Crash);
    var crashed := Next(s1, Crash);
    CrashKeeps(s1);
    RecoveryKeepsDurable(crashed, ts);
    RunInv(crashed, ts);
  }

  // Recovery then gives the file system with all of the group's updates if
  // the header had been written, and with none if not; recovering again
  // changes nothing.
  lemma AllOrNothing(s: Sys, k: nat, ts: seq<Step>)
    requires Inv(s) && InCommit(s, 0)
    requires k <= 2 * |s.st.lh| + 2
    requires forall i | 0 <= i < |ts| :: RecoveryOnly(ts[i])
    ensures var st := CrashedCommit(s, k, ts).st;
            && GoodDisk(st.L, st.dev.disk)
            && SameHome(st.L, Recovered(st.L, st.dev.disk),
                        if k <= |s.st.lh| then Before(s.st) else After(s.st))
            && (st.pc.Quiet? ==> SameHome(st.L, st.dev.disk, Recovered(st.L, st.dev.disk)))
  {
    var st := CrashedCommit(s, k, ts).st;
    CrashedCommitState(s, k, ts);
    DiskHolds(st);
    assert Durable(st) == st.done;
    AppendGroup(s.st.base, s.st.done, s.st.current);
    HoldsRecovered(st.L, st.dev.disk, ApplyGroups(st.base, st.done));
  }

  // The header on disk lists nothing while slots are being overwritten.
  lemma HeaderEmptyWhileSlotsChange(s: Sys)
    requires Reachable(s) && s.st.pc.Busy? && s.st.pc.k < |s.st.lh|
    ensures GoodDisk(s.st.L, s.st.dev.disk) && HeaderOf(s.st.dev.disk[s.st.L.start]) == []
  {
    ReachableInv(s);
    DiskHolds(s.st);
  }

  // ---- Operations ----

  // All updates of an operation are in one group: never half of them in a
  // commit.
  lemma EachOperationInOneCommit(s: Sys)
    requires Reachable(s)
    ensures OneGroupEach(s.st.done + [s.st.current])
  {
    ReachableInv(s);
  }

  lemma CurrentView(st: Store, b: nat)
    requires StoreInv(st) && st.L.Home(b) && !(st.pc.Busy? && st.pc.recovering)
    ensures st.dev.View(b) == After(st)[b]
    ensures st.dev.disk[b] != After(st)[b] ==> b in st.dev.cache && st.dev.cache[b].dirty
  {
    if b in st.lh[PinFrom(st)..] {
      var j :| PinFrom(st) <= j < |st.lh| && st.lh[j] == b;
    } else {
      ReadsDisk(st, b);
      if PinFrom(st) == 0 {
        assert st.lh[0..] == st.lh;
        ApplyUntouched(Before(st), st.current, b);
      }
    }
  }

  // Outside recovery, reading a home block gives the newest update; and a
  // block whose home copy is stale is cached and dirty, so it is not evicted.
  lemma ReadsAreCurrent(s: Sys, b: nat)
    requires Reachable(s) && s.st.L.Home(b) && !(s.st.pc.Busy? && s.st.pc.recovering)
    ensures b < |s.st.dev.disk| == |After(s.st)|
    ensures s.st.dev.View(b) == After(s.st)[b]
    ensures s.st.dev.disk[b] != After(s.st)[b] ==>
              b in s.st.dev.cache && s.st.dev.cache[b].dirty && !Enabled(s, Evict(b))
  {
    hide CacheInv, DiskInv, OpsInv, HistInv, Run;
    ReachableInv(s);
    CurrentView(s.st, b);
  }

  // committing implies that no operation is running, so end_op's panic is
  // dead; nor is log_write ever called outside a transaction; and whoever
  // sleeps in begin_op has a waker.
  lemma CommitExcludesOperations(s: Sys)
    requires Reachable(s)
    ensures s.committing ==> s.outstanding == 0
    ensures s.panic != CommittingTwice && s.panic != OutsideTrans
    ensures forall p | 0 <= p < |s.ops| && s.ops[p].Asleep? :: s.committing || s.outstanding > 0
  {
    ReachableInv(s);
  }

  // Whoever sleeps in begin_op has a reason to, as begin_op would see it now:
  // no wakeup is missed.
  lemma SleepersHaveReason(s: Sys, p: nat)
    requires Reachable(s) && p < |s.ops| && s.ops[p].Asleep?
    ensures s.committing || |s.st.lh| + (s.outstanding + 1) * 10 > 30
  {
    ReachableInv(s);
  }

  // What begin_op does, and log_write: an operation that enters has a new
  // number; a block written is seen by all reads from then on, goes into the
  // current group under that number, and no other block is touched.
  lemma BeginEnters(s: Sys, p: nat)
    requires Reachable(s) && Enabled(s, BeginOp(p))
    ensures var s', id := Next(s, BeginOp(p)), s.nextOp;
      && s'.st == s.st && |s'.ops| == |s.ops|
      && (s.committing || |s.st.lh| + (s.outstanding + 1) * 10 > 30 ==>
            s'.ops[p] == Asleep && s'.outstanding == s.outstanding)
      && (!s.committing && |s.st.lh| + (s.outstanding + 1) * 10 <= 30 ==>
            && s'.ops[p] == Running(id, 0) && s'.outstanding == s.outstanding + 1
            && (forall q | 0 <= q < |s.ops| && s.ops[q].Running? :: s.ops[q].id != id)
            && !Wrote(s.st.current, id) && NotIn(s.st.done, id))
  {
    hide StoreInv, OpsInv;
    ReachableInv(s);
  }

  lemma LogWriteTakesEffect(s: Sys, p: nat, b: Word, data: Block)
    requires Reachable(s) && Enabled(s, LogWrite(p, b, data)) && Next(s, LogWrite(p, b, data)).panic == NoPanic
    ensures var s' := Next(s, LogWrite(p, b, data));
      && s'.st.dev.disk == s.st.dev.disk && b < |s.st.dev.disk|
      && s'.st.dev.View(b) == data
      && (forall c | 0 <= c < |s.st.dev.disk| && c != b :: s'.st.dev.View(c) == s.st.dev.View(c))
      && s'.st.current == s.st.current + [Update(s.ops[p].id, b, data)] && s'.st.done == s.st.done
  {
  }

  // ---- Log space ----

  // With a log of more than LOGSIZE blocks, an operation that has used less
  // than its reservation passes log_write's guard.
  lemma LogSpaceSuffices(s: Sys, p: nat)
    requires Reachable(s) && s.st.L.size > LOGSIZE
    requires p < |s.ops| && s.ops[p].Running? && s.ops[p].added < MAXOPBLOCKS
    ensures !LogFull(s)
  {
    ReachableInv(s);
    SumBounds(s.ops, p);
  }

  // log_write panics exactly when the list is as long as the guard allows.
  // In a log of more than LOGSIZE blocks that takes all LOGSIZE entries: then
  // every operation has used up its reservation, and the block refused is one
  // that is already in the list.
  lemma LogWritePanicsIff(s: Sys, p: nat, b: Word, data: Block)
    requires Reachable(s) && Enabled(s, LogWrite(p, b, data))
    ensures var s' := Next(s, LogWrite(p, b, data)); var n, size := |s.st.lh|, s.st.L.size;
      && s'.panic == (if n >= LOGSIZE || n >= size - 1 then TooBig else NoPanic)
      && (size > LOGSIZE ==> (s'.panic == TooBig <==> n == LOGSIZE))
    ensures s.st.L.size > LOGSIZE && |s.st.lh| == LOGSIZE ==>
              && b in s.st.lh
              && forall q | 0 <= q < |s.ops| && s.ops[q].Running? :: s.ops[q].added == MAXOPBLOCKS
  {
    hide StoreInv, HistInv;
    ReachableInv(s);
    SumBounds(s.ops, p);
    if |s.st.lh| == LOGSIZE {
      forall q | 0 <= q < |s.ops| && s.ops[q].Running? ensures s.ops[q].added == MAXOPBLOCKS {
        SumBounds(s.ops, q);
      }
    }
  }

  // The run that fills the log: recover, open three operations, and log k
  // blocks that follow the log area, ten for each operation.
  function FillStep(L: Layout, i: nat): Step
    requires L.start + L.size + i < 0x8000_0000
  {
    LogWrite(i / MAXOPBLOCKS, L.start + L.size + i, ZeroBlock())
  }

  function FillRun(L: Layout, k: nat): seq<Step>
    requires L.start + L.size + k < 0x8000_0000
  {
    if k == 0 then [BlockWrite, Finish, BeginOp(0), BeginOp(1), BeginOp(2)]
    else FillRun(L, k - 1) + [FillStep(L, k - 1)]
  }

  function EmptyDisk(L: Layout): (d: Disk)
    requires L.Ok()
    ensures GoodDisk(L, d) && HeaderOf(d[L.start]) == []
  {
    seq(L.nblocks, _ => ZeroBlock())
  }

  ghost function Filled(L: Layout, k: nat): Sys
    requires L.Ok() && L.start + L.size + LOGSIZE <= L.nblocks && k <= LOGSIZE
  {
    Run(Boot(L, EmptyDisk(L), 3), FillRun(L, k))
  }

  ghost predicate FilledTo(L: Layout, s: Sys, k: nat) {
    && s.panic.NoPanic? && s.st.L == L && DevOk(L, s.st.dev, s.st.lh) && s.st.pc.Quiet? && s.outstanding == 3
    && s.st.lh == seq(k, i => L.start + L.size + i)
    && |s.ops| == 3
    && forall p | 0 <= p < 3 ::
         && s.ops[p].Running?
         && s.ops[p].added == if k >= 10 * (p + 1) then 10 else if k <= 10 * p then 0 else k - 10 * p
  }

  lemma RunAppend(s: Sys, ts: seq<Step>, t: Step)
    ensures Run(s, ts + [t]) == Next(Run(s, ts), t)
  {
    assert (ts + [t])[..|ts|] == ts;
  }

  ghost predicate Ready(L: Layout, s: Sys, started: nat) {
    && s.panic.NoPanic? && s.st.L == L && DevOk(L, s.st.dev, s.st.lh) && s.st.pc.Quiet?
    && !s.committing && s.outstanding == started && s.st.lh == []
    && |s.ops| == 3
    && forall p | 0 <= p < 3 ::
         if p < started then s.ops[p].Running? && s.ops[p].added == 0 else s.ops[p].Outside?
  }

  lemma ReadyBoot(L: Layout)
    requires L.Ok()
    ensures Ready(L, Run(Boot(L, EmptyDisk(L), 3), [BlockWrite, Finish]), 0)
  {
    var s0 := Boot(L, EmptyDisk(L), 3);
    BootInv(L, EmptyDisk(L), 3);
    RunAppend(s0, [], BlockWrite);
    RunAppend(s0, [BlockWrite], Finish);
    assert [] + [BlockWrite] == [BlockWrite] && [BlockWrite] + [Finish] == [BlockWrite, Finish];
    var s1 := Next(s0, BlockWrite);
    NextInv(s0, BlockWrite);
    assert s1.st.pc == Busy(2, true) && s1.st.lh == [] && s1.ops == s0.ops;
  }

  lemma ReadyBegin(L: Layout, s: Sys, started: nat)
    requires Ready(L, s, started) && started < 3
    ensures Ready(L, Next(s, BeginOp(started)), started + 1)
  {
  }

  lemma FilledStart(L: Layout)
    requires L.Ok() && L.start + L.size + LOGSIZE <= L.nblocks
    ensures FilledTo(L, Filled(L, 0), 0)
  {
    ReadyBoot(L);
    var s0, ts := Boot(L, EmptyDisk(L), 3), [BlockWrite, Finish];
    ReadyBegin(L, Run(s0, ts), 0);
    RunAppend(s0, ts, BeginOp(0));
    ReadyBegin(L, Run(s0, ts + [BeginOp(0)]), 1);
    RunAppend(s0, ts + [BeginOp(0)], BeginOp(1));
    ReadyBegin(L, Run(s0, ts + [BeginOp(0)] + [BeginOp(1)]), 2);
    RunAppend(s0, ts + [BeginOp(0)] + [BeginOp(1)], BeginOp(2));
    assert FillRun(L, 0) == ts + [BeginOp(0)] + [BeginOp(1)] + [BeginOp(2)];
  }

  lemma FillNext(L: Layout, s: Sys, k: nat)
    requires L.Ok() && L.start + L.size + LOGSIZE <= L.nblocks
    requires FilledTo(L, s, k) && k < LOGSIZE && k < L.size - 1
    ensures FilledTo(L, Next(s, FillStep(L, k)), k + 1)
  {
    var p := k / MAXOPBLOCKS;
    assert 10 * p <= k < 10 * (p + 1);
    assert L.start + L.size + k !in s.st.lh;
    assert seq(k + 1, i => L.start + L.size + i) ==
           seq(k, i => L.start + L.size + i) + [L.start + L.size + k];
  }

  lemma {:induction false} FilledRun(L: Layout, k: nat)
    requires L.Ok() && L.start + L.size + LOGSIZE <= L.nblocks
    requires k <= LOGSIZE && k < L.size
    ensures FilledTo(L, Filled(L, k), k)
  {
    if k == 0 {
      FilledStart(L);
    } else {
      FilledRun(L, k - 1);
      FillNext(L, Filled(L, k - 1), k - 1);
      RunAppend(Boot(L, EmptyDisk(L), 3), FillRun(L, k - 1), FillStep(L, k - 1));
    }
  }

  // With LOGSIZE blocks of log or fewer (mkfs makes exactly LOGSIZE) that
  // fails: some run panics when an operation within its reservation logs a
  // new block.
  lemma LogSpaceFallsShort(L: Layout)
    requires L.Ok() && L.start + L.size + LOGSIZE <= L.nblocks && L.size <= LOGSIZE
    ensures var s, t := Filled(L, L.size - 1), FillStep(L, L.size - 1);
            && Reachable(s) && s.st.L == L && Enabled(s, t)
            && t.block !in s.st.lh && s.ops[t.p].added < MAXOPBLOCKS
            && Next(s, t).panic == TooBig
  {
    var k := L.size - 1;
    FilledRun(L, k);
    assert 10 * (k / MAXOPBLOCKS) <= k < 10 * (k / MAXOPBLOCKS + 1);
    assert GoodDisk(L, EmptyDisk(L)) && Filled(L, k) == Run(Boot(L, EmptyDisk(L), 3), FillRun(L, k));
    assert L.start + L.size + k !in Filled(L, k).st.lh;
  }

  // The guard comes before absorption: once the log is full, even logging a
  // block that is already in it panics.
  lemma FullLogRefusesAbsorption(L: Layout)
    requires L.Ok() && L.start + L.size + LOGSIZE <= L.nblocks && L.size > LOGSIZE
    ensures var s, t := Filled(L, LOGSIZE), FillStep(L, 0);
            && Reachable(s) && s.st.L == L && Enabled(s, t)
            && t.block in s.st.lh
            && Next(s, t).panic == TooBig
  {
    FilledRun(L, LOGSIZE);
    assert GoodDisk(L, EmptyDisk(L)) &&
           Filled(L, LOGSIZE) == Run(Boot(L, EmptyDisk(L), 3), FillRun(L, LOGSIZE));
    assert Filled(L, LOGSIZE).st.lh[0] == L.start + L.size;
  }
}
