// What every run of the logging system keeps, and what it gives: crash
// atomicity, one group per operation, log space, and wake-ups.
module LogSafety {
  import opened Blocks
  import opened LogFormat
  import opened LogRuns

  // ---- Each step keeps the invariant ----

  // The header, the slots and the home blocks of d together hold the file
  // system e.
  ghost predicate Holds(L: Layout, d: Disk, e: Disk)
    requires GoodDisk(L, d) && |e| == |d|
  {
    var lh := HeaderOf(d[L.start]);
    Slots(L, d, lh, e, |lh|) && Installed(L, d, lh, e, 0)
  }

  // Recovery turns a disk into the file system that it holds.
  lemma RecoveredHolds(L: Layout, d: Disk)
    requires GoodDisk(L, d)
    ensures Holds(L, d, Recovered(L, d))
  {
    var lh := HeaderOf(d[L.start]);
    assert lh[..|lh|] == lh && lh[0..] == lh;
  }

  lemma HeldOnce(L: Layout, d: Disk, lh: seq<Word>, e: Disk, f: Disk)
    requires L.Ok() && |d| == |e| == |f| == L.nblocks && GoodList(L, lh)
    requires Slots(L, d, lh, e, |lh|) && Installed(L, d, lh, e, 0)
    requires Slots(L, d, lh, f, |lh|) && Installed(L, d, lh, f, 0)
    ensures SameHome(L, e, f)
  {
    assert lh[0..] == lh;
    forall b | 0 <= b < |d| && L.Home(b) ensures e[b] == f[b] {
      if b in lh {
        var j :| 0 <= j < |lh| && lh[j] == b;
        assert d[L.start + 1 + j] == e[lh[j]] == f[lh[j]];
      }
    }
  }

  lemma HoldsRecovered(L: Layout, d: Disk, e: Disk)
    requires GoodDisk(L, d) && |e| == |d| && Holds(L, d, e)
    ensures SameHome(L, Recovered(L, d), e)
  {
    RecoveredHolds(L, d);
    hide Recovered;
    HeldOnce(L, d, HeaderOf(d[L.start]), Recovered(L, d), e);
  }

  // A store that has just read the header of its disk.
  lemma FreshInv(st: Store)
    requires GoodDisk(st.L, st.dev.disk) && |st.base| == st.L.nblocks
    requires st.lh == HeaderOf(st.dev.disk[st.L.start]) && st.dev.cache == map[]
    requires st.current == [] && st.pc == Busy(|st.lh| + 1, true)
    requires Holds(st.L, st.dev.disk, Before(st))
    ensures StoreInv(st)
  {
  }

  lemma BootInv(L: Layout, d: Disk, nproc: nat)
    requires GoodDisk(L, d)
    ensures Inv(Boot(L, d, nproc))
  {
    hide StoreInv, OpsInv, HeaderOf, HeaderOk, Recovered;
    BootStore(L, d, nproc);
    BootOps(L, d, nproc);
  }

  lemma BootStore(L: Layout, d: Disk, nproc: nat)
    requires GoodDisk(L, d)
    ensures StoreInv(Boot(L, d, nproc).st)
  {
    hide StoreInv, Recovered;
    var st := Boot(L, d, nproc).st;
    RecoveredHolds(L, d);
    assert Before(st) == Recovered(L, d);
    FreshInv(st);
  }

  lemma BootOps(L: Layout, d: Disk, nproc: nat)
    requires GoodDisk(L, d)
    ensures OpsInv(Boot(L, d, nproc))
  {
    hide Recovered, WordAt;
    SumOutside(Boot(L, d, nproc).ops);
  }

  lemma BeginOps(s: Sys, p: nat)
    requires OpsInv(s) && Enabled(s, BeginOp(p))
    ensures OpsInv(DoBegin(s, p))
  {
    SumUpdate(s.ops, p, Asleep);
    SumUpdate(s.ops, p, Running(s.nextOp, 0));
    SumBounds(s.ops, p);
  }

  lemma BeginInv(s: Sys, p: nat)
    requires Inv(s) && Enabled(s, BeginOp(p))
    ensures Inv(DoBegin(s, p))
  {
    BeginOps(s, p);
    assert HistInv(DoBegin(s, p));
  }

  lemma RecordShape(st: Store, u: Update)
    requires Shape(st) && st.L.Home(u.block)
    requires |st.lh| < LOGSIZE && |st.lh| < st.L.size - 1
    ensures Shape(Record(st, u)) && u.block in Record(st, u).lh
  {
    var lh := Record(st, u).lh;
    assert forall j | 0 <= j < |lh| :: lh[j] == if j < |st.lh| then st.lh[j] else u.block;
    if u.block !in st.lh { assert lh[|st.lh|] == u.block; }
  }

  lemma RecordPinned(dev: Dev, lh: seq<Word>, e: Disk, b: Word, data: Block)
    requires b < |e| && Pinned(dev, lh, e, 0)
    ensures Pinned(dev.Pin(b, data), Note(lh, b), e[b := data], 0)
  {
  }

  lemma RecordInv(st: Store, u: Update)
    requires StoreInv(st) && st.pc.Quiet? && st.L.Home(u.block)
    requires |st.lh| < LOGSIZE && |st.lh| < st.L.size - 1
    ensures StoreInv(Record(st, u))
  {
    hide Pinned, Slots, Installed, Apply, ApplyGroups, HeaderOk, HeaderOf;
    var st' := Record(st, u);
    RecordShape(st, u);
    ApplyAppend(Before(st), st.current, u);
    RecordPinned(st.dev, st.lh, After(st), u.block, u.data);
    assert st'.lh[0..] == st'.lh && st.lh[0..] == st.lh;
  }

  lemma RecordHist(s: Sys, p: nat, b: Word, data: Block)
    requires HistInv(s) && Enabled(s, LogWrite(p, b, data)) && !LogFull(s) && s.outstanding > 0
    ensures HistInv(DoLogWrite(s, p, b, data))
  {
    var s' := DoLogWrite(s, p, b, data);
    forall id: nat | Wrote(s'.st.current, id)
      ensures Wrote(s.st.current, id) || id == s.ops[p].id
    {
      var i :| 0 <= i < |s'.st.current| && s'.st.current[i].op == id;
      assert i < |s.st.current| ==> s.st.current[i].op == id;
    }
  }

  lemma LogWriteOps(s: Sys, p: nat, b: Word, data: Block)
    requires OpsInv(s) && Enabled(s, LogWrite(p, b, data))
    ensures s.outstanding > 0 && s.st.pc.Quiet?
    ensures OpsInv(DoLogWrite(s, p, b, data))
  {
    SumBounds(s.ops, p);
    var s' := DoLogWrite(s, p, b, data);
    SumUpdate(s.ops, p, s'.ops[p]);
    assert s'.ops == s.ops[p := s'.ops[p]];
  }

  lemma LogWriteInv(s: Sys, p: nat, b: Word, data: Block)
    requires Inv(s) && Enabled(s, LogWrite(p, b, data))
    ensures Inv(DoLogWrite(s, p, b, data))
  {
    LogWriteOps(s, p, b, data);
    if !LogFull(s) {
      RecordInv(s.st, Update(s.ops[p].id, b, data));
      RecordHist(s, p, b, data);
    }
  }

  lemma EndOps(s: Sys, p: nat)
    requires OpsInv(s) && Enabled(s, EndOp(p))
    ensures !s.committing && OpsInv(DoEnd(s, p))
  {
    SumUpdate(s.ops, p, Outside);
    SumBounds(s.ops, p);
    SumWake(s.ops[p := Outside]);
  }

  lemma CommitInv(st: Store)
    requires StoreInv(st) && st.pc.Quiet?
    ensures StoreInv(st.(pc := Busy(0, false)))
  {
    assert After(st.(pc := Busy(0, false))) == After(st);
  }

  lemma EndInv(s: Sys, p: nat)
    requires Inv(s) && Enabled(s, EndOp(p))
    ensures Inv(DoEnd(s, p))
  {
    EndOps(s, p);
    if s.outstanding == 1 { CommitInv(s.st); }
    assert HistInv(DoEnd(s, p));
  }

  // Blocks of the log area and blocks not pinned read as they are on disk.
  lemma ReadsDisk(st: Store, b: nat)
    requires Shape(st) && CacheInv(st) && b < st.L.nblocks && b !in st.lh[PinFrom(st)..]
    ensures st.dev.View(b) == st.dev.disk[b]
  {
  }

  // The device wrote `data` to block t, and otherwise only loaded buffers.
  ghost predicate OneWrite(d: Dev, e: Dev, t: nat, data: Block) {
    && t < |d.disk|
    && e.disk == d.disk[t := data]
    && t in e.cache && e.cache[t] == Buf(data, false)
    && (forall b | b in d.cache :: b in e.cache)
    && (forall b | b in e.cache && b != t ::
          b < |d.disk| && e.cache[b] == if b in d.cache then d.cache[b] else Buf(d.disk[b], false))
  }

  lemma CacheAfterWrite(st: Store, st': Store, t: nat, data: Block)
    requires Shape(st) && CacheInv(st) && st.pc.Busy? && t < st.L.nblocks
    requires Shape(st') && st' == st.(dev := st'.dev, pc := st'.pc) && st'.pc.Busy?
    requires OneWrite(st.dev, st'.dev, t, data)
    requires PinFrom(st) <= PinFrom(st') <= |st.lh|
    requires forall j | PinFrom(st) <= j < PinFrom(st') :: st.lh[j] == t
    requires t !in st.lh[PinFrom(st')..]
    ensures CacheInv(st')
  {
  }

  // The k-th write, seen on disk: one lemma for each kind of write.

  lemma SlotWritten(st: Store, st': Store, data: Block)
    requires Shape(st) && Shape(st') && CanWrite(st) && st.pc.k < |st.lh|
    requires st' == st.(dev := st'.dev, pc := st.pc.(k := st.pc.k + 1))
    requires OneWrite(st.dev, st'.dev, st.L.start + 1 + st.pc.k, data)
    requires DiskAt(st, []) && data == After(st)[st.lh[st.pc.k]]
    ensures DiskAt(st', [])
  {
  }

  lemma HeadWritten(st: Store, st': Store, data: Block)
    requires Shape(st) && Shape(st') && CanWrite(st) && st.pc.k == |st.lh|
    requires st' == st.(dev := st'.dev, pc := st.pc.(k := st.pc.k + 1))
    requires OneWrite(st.dev, st'.dev, st.L.start, data)
    requires DiskAt(st, [])
    ensures DiskAt(st', st.lh)
  {
    forall b | 0 <= b < st.L.nblocks && st.L.Home(b) && b !in st.lh
      ensures st'.dev.disk[b] == After(st)[b]
    {
      ApplyUntouched(Before(st), st.current, b);
    }
    assert st.lh[0..] == st.lh;
  }

  // Copying slot i to its home block installs one more entry.
  lemma InstallOne(L: Layout, d: Disk, e: Disk, lh: seq<Word>, i: nat)
    requires L.Ok() && GoodList(L, lh) && |d| == |e| == L.nblocks && i < |lh|
    requires Slots(L, d, lh, e, |lh|) && Installed(L, d, lh, e, i)
    ensures var d' := d[lh[i] := d[L.start + 1 + i]];
            Slots(L, d', lh, e, |lh|) && Installed(L, d', lh, e, i + 1)
  {
    assert lh[i..] == [lh[i]] + lh[i + 1..];
  }

  lemma HomeWritten(st: Store, st': Store, i: nat, data: Block)
    requires Shape(st) && Shape(st') && CanWrite(st) && i < |st.lh| && st.pc.k == |st.lh| + 1 + i
    requires st' == st.(dev := st'.dev, pc := st.pc.(k := st.pc.k + 1))
    requires OneWrite(st.dev, st'.dev, st.lh[i], data)
    requires DiskAt(st, st.lh) && data == st.dev.disk[st.L.start + 1 + i]
    ensures DiskAt(st', st.lh)
  {
    InstallOne(st.L, st.dev.disk, After(st), st.lh, i);
    assert After(st') == After(st);
  }

  lemma Cleared(st: Store, st': Store, data: Block)
    requires Shape(st) && Shape(st') && CanWrite(st) && st.pc.k == 2 * |st.lh| + 1
    requires st' == st.(dev := st'.dev, pc := st.pc.(k := st.pc.k + 1))
    requires OneWrite(st.dev, st'.dev, st.L.start, data)
    requires DiskAt(st, st.lh)
    ensures DiskAt(st', [])
  {
  }

  // The writes of commit(), by kind.

  lemma SlotKind(L: Layout, dev: Dev, lh: seq<Word>, k: nat)
    requires DevOk(L, dev, lh) && k < |lh|
    requires forall b | b in dev.cache :: b < |dev.disk|
    ensures OneWrite(dev, WriteStep(L, dev, lh, k), L.start + 1 + k, dev.View(lh[k]))
  {
  }

  lemma HomeKind(L: Layout, dev: Dev, lh: seq<Word>, i: nat)
    requires DevOk(L, dev, lh) && i < |lh|
    requires forall b | b in dev.cache :: b < |dev.disk|
    ensures OneWrite(dev, WriteStep(L, dev, lh, |lh| + 1 + i), lh[i], dev.View(L.start + 1 + i))
  {
  }

  lemma HeadKinds(L: Layout, dev: Dev, lh: seq<Word>)
    requires DevOk(L, dev, lh)
    requires forall b | b in dev.cache :: b < |dev.disk|
    ensures OneWrite(dev, WriteStep(L, dev, lh, |lh|), L.start, PutHeader(dev.View(L.start), lh))
    ensures OneWrite(dev, WriteStep(L, dev, lh, 2 * |lh| + 1), L.start,
                     PutHeader(dev.View(L.start), []))
  {
  }

  // The header on disk lists what is being installed.
  lemma HeaderDuring(st: Store)
    requires StoreInv(st) && st.pc.Busy?
    ensures HeaderOk(st.dev.disk[st.L.start]) && DiskAt(st, HeaderOf(st.dev.disk[st.L.start]))
    ensures HeaderOf(st.dev.disk[st.L.start]) ==
              if |st.lh| < st.pc.k <= 2 * |st.lh| + 1 then st.lh else []
  {
  }

  // write_log() copies the buffers that hold the group's contents.
  lemma SlotSource(st: Store)
    requires StoreInv(st) && st.pc.Busy? && st.pc.k < |st.lh|
    ensures st.lh[st.pc.k] < |After(st)| && st.dev.View(st.lh[st.pc.k]) == After(st)[st.lh[st.pc.k]]
  {
  }

  lemma SlotWriteInv(st: Store, st': Store, data: Block)
    requires StoreInv(st) && CanWrite(st) && st.pc.k < |st.lh|
    requires st' == st.(dev := st'.dev, pc := st.pc.(k := st.pc.k + 1))
    requires OneWrite(st.dev, st'.dev, st.L.start + 1 + st.pc.k, data)
    requires data == st.dev.View(st.lh[st.pc.k])
    ensures StoreInv(st')
  {
    hide DiskAt, Pinned, HeaderOk, HeaderOf;
    HeaderDuring(st);
    SlotSource(st);
    SlotWritten(st, st', data);
    CacheAfterWrite(st, st', st.L.start + 1 + st.pc.k, data);
  }

  lemma HeadWriteInv(st: Store, st': Store, data: Block)
    requires StoreInv(st) && CanWrite(st) && st.pc.k == |st.lh|
    requires st' == st.(dev := st'.dev, pc := st.pc.(k := st.pc.k + 1))
    requires OneWrite(st.dev, st'.dev, st.L.start, data)
    requires HeaderOk(data) && HeaderOf(data) == st.lh
    ensures StoreInv(st')
  {
    HeadWritten(st, st', data);
    CacheAfterWrite(st, st', st.L.start, data);
  }

  lemma HomeWriteInv(st: Store, st': Store, i: nat, data: Block)
    requires StoreInv(st) && CanWrite(st) && i < |st.lh| && st.pc.k == |st.lh| + 1 + i
    requires st' == st.(dev := st'.dev, pc := st.pc.(k := st.pc.k + 1))
    requires OneWrite(st.dev, st'.dev, st.lh[i], data) && data == st.dev.View(st.L.start + 1 + i)
    ensures StoreInv(st')
  {
    hide DiskAt, Pinned, HeaderOk, HeaderOf;
    HeaderDuring(st);
    ReadsDisk(st, st.L.start + 1 + i);
    HomeWritten(st, st', i, data);
    CacheAfterWrite(st, st', st.lh[i], data);
  }

  lemma ClearInv(st: Store, st': Store, data: Block)
    requires StoreInv(st) && CanWrite(st) && st.pc.k == 2 * |st.lh| + 1
    requires st' == st.(dev := st'.dev, pc := st.pc.(k := st.pc.k + 1))
    requires OneWrite(st.dev, st'.dev, st.L.start, data)
    requires HeaderOk(data) && HeaderOf(data) == []
    ensures StoreInv(st')
  {
    Cleared(st, st', data);
    CacheAfterWrite(st, st', st.L.start, data);
  }

  lemma CacheInRange(st: Store)
    requires StoreInv(st)
    ensures forall b | b in st.dev.cache :: b < |st.dev.disk|
  {
  }

  lemma WriteLogInv(st: Store)
    requires StoreInv(st) && CanWrite(st) && st.pc.k <= |st.lh|
    ensures StoreInv(DoWrite(st))
  {
    hide WriteStep, StoreInv, OneWrite;
    CacheInRange(st);
    var st', k := DoWrite(st), st.pc.k;
    if k < |st.lh| {
      SlotKind(st.L, st.dev, st.lh, k);
      SlotWriteInv(st, st', st.dev.View(st.lh[k]));
    } else {
      HeadKinds(st.L, st.dev, st.lh);
      HeadWriteInv(st, st', PutHeader(st.dev.View(st.L.start), st.lh));
    }
  }

  lemma WriteHomeInv(st: Store, i: nat)
    requires StoreInv(st) && CanWrite(st) && i < |st.lh| && st.pc.k == |st.lh| + 1 + i
    ensures StoreInv(DoWrite(st))
  {
    hide WriteStep, StoreInv, OneWrite;
    CacheInRange(st);
    HomeKind(st.L, st.dev, st.lh, i);
    HomeWriteInv(st, DoWrite(st), i, st.dev.View(st.L.start + 1 + i));
  }

  lemma WriteClearInv(st: Store)
    requires StoreInv(st) && CanWrite(st) && st.pc.k == 2 * |st.lh| + 1
    ensures StoreInv(DoWrite(st))
  {
    hide WriteStep, PutHeader, StoreInv, OneWrite;
    CacheInRange(st);
    HeadKinds(st.L, st.dev, st.lh);
    ClearInv(st, DoWrite(st), PutHeader(st.dev.View(st.L.start), []));
  }

  lemma WriteInv(st: Store)
    requires StoreInv(st) && CanWrite(st)
    ensures StoreInv(DoWrite(st))
  {
    if st.pc.k <= |st.lh| {
      WriteLogInv(st);
    } else if st.pc.k <= 2 * |st.lh| {
      WriteHomeInv(st, st.pc.k - |st.lh| - 1);
    } else {
      WriteClearInv(st);
    }
  }

  lemma NothingLogged(us: seq<Update>, lh: seq<Word>)
    requires forall i | 0 <= i < |us| :: us[i].block in lh
    ensures lh == [] ==> us == []
  {
    if us != [] { var u := us[0]; }
  }

  // All of the group is installed once commit() or recovery is through.
  lemma FinishedDisk(st: Store)
    requires StoreInv(st) && Finished(st)
    ensures HeaderOf(st.dev.disk[st.L.start]) == []
    ensures SameHome(st.L, st.dev.disk, After(st))
    ensures PinFrom(st) == |st.lh|
  {
    if st.lh == [] && !st.pc.recovering {
      NothingLogged(st.current, st.lh);
    }
  }

  lemma CloseInv(st: Store)
    requires StoreInv(st) && Finished(st)
    ensures StoreInv(Close(st))
  {
    FinishedDisk(st);
    AppendGroup(st.base, st.done, st.current);
    var st' := Close(st);
    assert Before(st') == After(st);
    assert st.lh[|st.lh|..] == [];
  }

  lemma FinishInv(s: Sys)
    requires Inv(s) && Enabled(s, Finish)
    ensures Inv(DoFinish(s))
  {
    hide StoreInv, Close;
    CloseInv(s.st);
    FinishOps(s);
    FinishHist(s);
  }

  lemma FinishHist(s: Sys)
    requires HistInv(s) && OpsInv(s) && Enabled(s, Finish)
    ensures HistInv(DoFinish(s))
  {
    forall p | 0 <= p < |s.ops| ensures !s.ops[p].Running? { NoneRunning(s.ops, p); }
  }

  lemma FinishOps(s: Sys)
    requires OpsInv(s) && Enabled(s, Finish)
    ensures OpsInv(DoFinish(s))
  {
    SumWake(s.ops);
    forall p | 0 <= p < |s.ops| ensures !s.ops[p].Running? && Reserved(s.ops) == 0 {
      NoneRunning(s.ops, p);
    }
  }

  lemma RebootInv(st: Store)
    requires StoreInv(st)
    ensures StoreInv(Reboot(st))
  {
    AppendGroup(st.base, st.done, st.current);
    FreshInv(Reboot(st));
  }

  lemma CrashHist(s: Sys)
    requires HistInv(s) && Enabled(s, Crash)
    ensures HistInv(DoCrash(s))
  {
    hide Wrote;
    NothingWrote();
  }

  lemma NothingWrote()
    ensures forall id: nat :: !Wrote([], id)
  {
  }

  lemma CrashInv(s: Sys)
    requires Inv(s) && Enabled(s, Crash)
    ensures Inv(DoCrash(s))
  {
    hide StoreInv, HistInv;
    CrashHist(s);
    RebootInv(s.st);
    SumOutside(DoCrash(s).ops);
  }
}
