// Whole runs of the logging system (log.c) with any number of processes:
// every interleaving of begin_op, log_write, end_op, the single block writes
// of commit() and of recovery, cache loads and evictions, and crashes.
module LogRuns {
  import opened Blocks
  import opened LogFormat

  // One log_write: operation op gave block its new contents.
  datatype Update = Update(op: nat, block: nat, data: Block)

  // A process, as log.c sees it.  `added` counts the log entries that the
  // operation appended.
  datatype Op = Outside | Asleep | Running(id: nat, added: nat)

  datatype Panic = NoPanic | TooBig | OutsideTrans | CommittingTwice

  // Where the thread in commit() (or in recover_from_log()) is: the next
  // block write it will do, numbered as in Dev.WriteStep.
  datatype Pc = Quiet | Busy(k: nat, recovering: bool)

  // The disk, the cache and the log list, and as history the disk once boot
  // had recovered it, the group commits so far, and the current group.
  datatype Store = Store(
    L: Layout,
    dev: Dev,
    lh: seq<Word>,
    pc: Pc,
    base: Disk,
    done: seq<seq<Update>>,
    current: seq<Update>)

  datatype Sys = Sys(
    st: Store,
    outstanding: nat,
    committing: bool,
    ops: seq<Op>,
    panic: Panic,
    nextOp: nat)

  datatype Step =
    | BeginOp(p: nat)
    | LogWrite(p: nat, block: Word, data: Block)
    | EndOp(p: nat)
    | BlockWrite
    | Finish
    | LoadBlock(b: nat)
    | Evict(b: nat)
    | Crash

  // ---- What a list of updates means ----

  function Apply(d: Disk, us: seq<Update>): (r: Disk)
    ensures |r| == |d|
  {
    if us == [] then d else
      var r, u := Apply(d, us[..|us| - 1]), us[|us| - 1];
      if u.block < |r| then r[u.block := u.data] else r
  }

  function ApplyGroups(d: Disk, gs: seq<seq<Update>>): (r: Disk)
    ensures |r| == |d|
  {
    if gs == [] then d else Apply(ApplyGroups(d, gs[..|gs| - 1]), gs[|gs| - 1])
  }

  // ---- The steps ----

  ghost function Boot(L: Layout, d: Disk, nproc: nat): (s: Sys)
    requires GoodDisk(L, d)
  {
    var lh := HeaderOf(d[L.start]);
    Sys(Store(L, Dev(d, map[]), lh, Busy(|lh| + 1, true), Recovered(L, d), [], []),
        0, false, seq(nproc, _ => Outside), NoPanic, 0)
  }

  function WakeAll(ops: seq<Op>): (r: seq<Op>)
    ensures |r| == |ops|
    ensures forall p | 0 <= p < |ops| :: r[p] == if ops[p].Asleep? then Outside else ops[p]
  {
    seq(|ops|, p requires 0 <= p < |ops| => if ops[p].Asleep? then Outside else ops[p])
  }

  ghost predicate Up(s: Sys) {
    s.panic.NoPanic? && DevOk(s.st.L, s.st.dev, s.st.lh)
  }

  ghost predicate Enabled(s: Sys, t: Step) {
    match t
    case BeginOp(p) =>
      Up(s) && p < |s.ops| && s.ops[p].Outside? && !(s.st.pc.Busy? && s.st.pc.recovering)
    // An operation may append at most MAXOPBLOCKS entries.
    case LogWrite(p, b, _) =>
      && Up(s) && p < |s.ops| && s.ops[p].Running? && s.st.L.Home(b)
      && (b in s.st.lh || s.ops[p].added < MAXOPBLOCKS)
    case EndOp(p) => Up(s) && p < |s.ops| && s.ops[p].Running? && s.outstanding > 0
    case BlockWrite => Up(s) && CanWrite(s.st)
    case Finish => Up(s) && Finished(s.st)
    case LoadBlock(b) => Up(s) && b < s.st.L.nblocks
    case Evict(b) => Up(s) && b in s.st.dev.cache && !s.st.dev.cache[b].dirty
    case Crash => DevOk(s.st.L, s.st.dev, s.st.lh) && HeaderOk(s.st.dev.disk[s.st.L.start])
  }

  ghost predicate CanWrite(st: Store) {
    && DevOk(st.L, st.dev, st.lh) && st.pc.Busy? && st.pc.k < 2 * |st.lh| + 2
    && (st.pc.recovering || st.lh != [])
  }

  // commit() does nothing when nothing was logged.
  predicate Finished(st: Store) {
    st.pc.Busy? && (st.pc.k == 2 * |st.lh| + 2 || (!st.pc.recovering && st.lh == []))
  }

  // begin_op's test for log space.
  predicate NoRoom(s: Sys) {
    |s.st.lh| + (s.outstanding + 1) * MAXOPBLOCKS > LOGSIZE
  }

  // log_write's first guard.
  predicate LogFull(s: Sys) {
    |s.st.lh| >= LOGSIZE || |s.st.lh| >= s.st.L.size - 1
  }

  ghost function DoBegin(s: Sys, p: nat): Sys
    requires Enabled(s, BeginOp(p))
  {
    if s.committing || NoRoom(s) then s.(ops := s.ops[p := Asleep])
    else s.(outstanding := s.outstanding + 1, ops := s.ops[p := Running(s.nextOp, 0)],
            nextOp := s.nextOp + 1)
  }

  function Record(st: Store, u: Update): Store
    requires u.block < 0x8000_0000
  {
    st.(dev := st.dev.Pin(u.block, u.data), lh := Note(st.lh, u.block), current := st.current + [u])
  }

  ghost function DoLogWrite(s: Sys, p: nat, b: Word, data: Block): Sys
    requires Enabled(s, LogWrite(p, b, data))
  {
    if LogFull(s) then s.(panic := TooBig)
    else if s.outstanding < 1 then s.(panic := OutsideTrans)
    else
      var added := s.ops[p].added + if b in s.st.lh then 0 else 1;
      s.(st := Record(s.st, Update(s.ops[p].id, b, data)),
         ops := s.ops[p := s.ops[p].(added := added)])
  }

  ghost function DoEnd(s: Sys, p: nat): Sys
    requires Enabled(s, EndOp(p))
  {
    var s1 := s.(outstanding := s.outstanding - 1, ops := s.ops[p := Outside]);
    if s.committing then s1.(panic := CommittingTwice)
    else if s1.outstanding == 0 then s1.(committing := true, st := s.st.(pc := Busy(0, false)))
    else s1.(ops := WakeAll(s1.ops))
  }

  ghost function DoWrite(st: Store): Store
    requires CanWrite(st)
  {
    st.(dev := WriteStep(st.L, st.dev, st.lh, st.pc.k), pc := st.pc.(k := st.pc.k + 1))
  }

  function Close(st: Store): Store
    requires Finished(st)
  {
    st.(lh := [], pc := Quiet,
        done := if st.pc.recovering then st.done else st.done + [st.current], current := [])
  }

  ghost function DoFinish(s: Sys): Sys
    requires Enabled(s, Finish)
  {
    s.(st := Close(s.st), committing := false, ops := WakeAll(s.ops))
  }

  // The groups that a crash now would leave on disk.
  function Durable(st: Store): seq<seq<Update>> {
    if st.pc.Busy? && !st.pc.recovering && st.pc.k > |st.lh| then st.done + [st.current]
    else st.done
  }

  // Memory is lost; the kernel boots, reads the header and starts recovery.
  ghost function Reboot(st: Store): Store
    requires DevOk(st.L, st.dev, st.lh) && HeaderOk(st.dev.disk[st.L.start])
  {
    var lh := HeaderOf(st.dev.disk[st.L.start]);
    st.(dev := Dev(st.dev.disk, map[]), lh := lh, pc := Busy(|lh| + 1, true),
        done := Durable(st), current := [])
  }

  ghost function DoCrash(s: Sys): Sys
    requires Enabled(s, Crash)
  {
    s.(st := Reboot(s.st), outstanding := 0, committing := false,
       ops := seq(|s.ops|, _ => Outside), panic := NoPanic)
  }

  // A step that is not enabled leaves the state alone, so that every sequence
  // of steps is a run.
  ghost function Next(s: Sys, t: Step): Sys {
    if !Enabled(s, t) then s else
      match t
      case BeginOp(p) => DoBegin(s, p)
      case LogWrite(p, b, data) => DoLogWrite(s, p, b, data)
      case EndOp(p) => DoEnd(s, p)
      case BlockWrite => s.(st := DoWrite(s.st))
      case Finish => DoFinish(s)
      case LoadBlock(b) => s.(st := s.st.(dev := s.st.dev.Load(b)))
      case Evict(b) => s.(st := s.st.(dev := s.st.dev.(cache := s.st.dev.cache - {b})))
      case Crash => DoCrash(s)
  }

  ghost function Run(s: Sys, ts: seq<Step>): Sys {
    if ts == [] then s else Next(Run(s, ts[..|ts| - 1]), ts[|ts| - 1])
  }

  // ---- The invariant ----

  // The file system before, and with, the current group.
  ghost function Before(st: Store): (d: Disk)
    ensures |d| == |st.base|
  {
    ApplyGroups(st.base, st.done)
  }

  ghost function After(st: Store): (d: Disk)
    ensures |d| == |st.base|
  {
    Apply(Before(st), st.current)
  }

  ghost predicate Shape(st: Store) {
    && DevOk(st.L, st.dev, st.lh)
    && |st.base| == st.L.nblocks
    && forall i | 0 <= i < |st.current| :: st.current[i].block in st.lh
  }

  // Entries lh[PinFrom..] are not yet installed; their buffers are dirty.
  ghost function PinFrom(st: Store): nat {
    var n := |st.lh|;
    match st.pc
    case Quiet => 0
    case Busy(k, recovering) =>
      if recovering || k > 2 * n then n else if k <= n then 0 else k - n - 1
  }

  ghost predicate CacheInv(st: Store)
    requires Shape(st)
  {
    && (forall b | b in st.dev.cache ::
          && b < st.L.nblocks
          && if st.dev.cache[b].dirty then b in st.lh[PinFrom(st)..]
             else st.dev.cache[b].data == st.dev.disk[b])
    && Pinned(st.dev, st.lh, After(st), PinFrom(st))
  }

  // The buffers of lh[i..] are dirty and hold what e has.
  ghost predicate Pinned(dev: Dev, lh: seq<Word>, e: Disk, i: nat) {
    forall j | i <= j < |lh| ::
      lh[j] in dev.cache && lh[j] < |e| && dev.cache[lh[j]] == Buf(e[lh[j]], true)
  }

  // The first k slots of d hold what e has for lh[..k].
  ghost predicate Slots(L: Layout, d: Disk, lh: seq<Word>, e: Disk, k: nat)
    requires L.Ok() && |d| == |e| == L.nblocks && GoodList(L, lh) && k <= |lh|
  {
    forall j | 0 <= j < k :: d[L.start + 1 + j] == e[lh[j]]
  }

  // The home blocks of d are as in e, but perhaps for lh[i..].
  ghost predicate Installed(L: Layout, d: Disk, lh: seq<Word>, e: Disk, i: nat)
    requires L.Ok() && |d| == |e| == L.nblocks && GoodList(L, lh) && i <= |lh|
  {
    forall b | 0 <= b < |d| && L.Home(b) && b !in lh[i..] :: d[b] == e[b]
  }

  // The disk, whose header lists hdr, at each point of commit and recovery.
  ghost predicate DiskAt(st: Store, hdr: seq<Word>)
    requires Shape(st)
  {
    var n, d, lh := |st.lh|, st.dev.disk, st.lh;
    match st.pc
    case Quiet => hdr == [] && SameHome(st.L, d, Before(st))
    case Busy(k, recovering) =>
      && k <= 2 * n + 2
      && (recovering ==> k > n && st.current == [])
      && if k <= n then
           hdr == [] && SameHome(st.L, d, Before(st)) && Slots(st.L, d, lh, After(st), k)
         else if k <= 2 * n + 1 then
           && hdr == lh
           && Slots(st.L, d, lh, After(st), n) && Installed(st.L, d, lh, After(st), k - n - 1)
         else hdr == [] && SameHome(st.L, d, After(st))
  }

  ghost predicate DiskInv(st: Store)
    requires Shape(st)
  {
    && HeaderOk(st.dev.disk[st.L.start])
    && DiskAt(st, HeaderOf(st.dev.disk[st.L.start]))
  }

  ghost predicate StoreInv(st: Store) {
    Shape(st) && CacheInv(st) && DiskInv(st)
  }

  function CountRunning(ops: seq<Op>): nat {
    if ops == [] then 0
    else CountRunning(ops[1..]) + if ops[0].Running? then 1 else 0
  }

  // Log entries still reserved for the running operations.
  function Reserved(ops: seq<Op>): int {
    if ops == [] then 0
    else Reserved(ops[1..]) + if ops[0].Running? then MAXOPBLOCKS - ops[0].added else 0
  }

  ghost predicate OpsInv(s: Sys) {
    && s.outstanding == CountRunning(s.ops)
    && |s.st.lh| + Reserved(s.ops) <= LOGSIZE
    && (forall p | 0 <= p < |s.ops| && s.ops[p].Running? :: s.ops[p].added <= MAXOPBLOCKS)
    && (s.committing <==> s.st.pc.Busy? && !s.st.pc.recovering)
    && (s.st.pc.Busy? ==> s.outstanding == 0)
    && (s.st.pc.Quiet? && s.outstanding == 0 ==> s.st.lh == [])
    && (forall p | 0 <= p < |s.ops| && s.ops[p].Asleep? :: s.committing || (s.outstanding > 0 && NoRoom(s)))
    && (s.panic.NoPanic? || s.panic.TooBig?)
  }

  ghost predicate Wrote(us: seq<Update>, id: nat) {
    exists i | 0 <= i < |us| :: us[i].op == id
  }

  ghost predicate NotIn(gs: seq<seq<Update>>, id: nat) {
    forall g | 0 <= g < |gs| :: !Wrote(gs[g], id)
  }

  // No operation wrote in two of the groups.
  ghost predicate OneGroupEach(gs: seq<seq<Update>>) {
    forall g, h, id: nat | 0 <= g < h < |gs| :: Wrote(gs[g], id) ==> !Wrote(gs[h], id)
  }

  ghost predicate HistInv(s: Sys) {
    && OneGroupEach(s.st.done)
    && (forall id: nat | Wrote(s.st.current, id) :: NotIn(s.st.done, id))
    && (forall g, id: nat | 0 <= g < |s.st.done| :: Wrote(s.st.done[g], id) ==> id < s.nextOp)
    && (forall id: nat | Wrote(s.st.current, id) :: id < s.nextOp)
    && (forall p | 0 <= p < |s.ops| && s.ops[p].Running? ::
          s.ops[p].id < s.nextOp && NotIn(s.st.done, s.ops[p].id))
  }

  ghost predicate Inv(s: Sys) {
    StoreInv(s.st) && OpsInv(s) && HistInv(s)
  }

  // ---- Lemmas about updates and sums ----

  lemma {:induction false} ApplyUntouched(d: Disk, us: seq<Update>, b: nat)
    requires b < |d|
    requires forall i | 0 <= i < |us| :: us[i].block != b
    ensures Apply(d, us)[b] == d[b]
  {
    if us != [] { ApplyUntouched(d, us[..|us| - 1], b); }
  }

  lemma ApplyAppend(d: Disk, us: seq<Update>, u: Update)
    requires u.block < |d|
    ensures Apply(d, us + [u]) == Apply(d, us)[u.block := u.data]
  {
    assert (us + [u])[..|us|] == us;
  }

  lemma AppendGroup(d: Disk, gs: seq<seq<Update>>, us: seq<Update>)
    ensures ApplyGroups(d, gs + [us]) == Apply(ApplyGroups(d, gs), us)
  {
    assert (gs + [us])[..|gs|] == gs;
  }

  // Changing one process changes the two sums by that process's share.
  lemma {:induction false} SumUpdate(ops: seq<Op>, p: nat, o: Op)
    requires p < |ops|
    ensures CountRunning(ops[p := o]) ==
              CountRunning(ops) + (if o.Running? then 1 else 0) - (if ops[p].Running? then 1 else 0)
    ensures Reserved(ops[p := o]) ==
              Reserved(ops) + (if o.Running? then MAXOPBLOCKS - o.added else 0)
                            - (if ops[p].Running? then MAXOPBLOCKS - ops[p].added else 0)
  {
    if p == 0 {
      assert ops[p := o][1..] == ops[1..];
    } else {
      assert ops[p := o][1..] == ops[1..][p - 1 := o];
      SumUpdate(ops[1..], p - 1, o);
    }
  }

  lemma {:induction false} SumBounds(ops: seq<Op>, p: nat)
    requires forall q | 0 <= q < |ops| && ops[q].Running? :: ops[q].added <= MAXOPBLOCKS
    ensures 0 <= Reserved(ops) <= CountRunning(ops) * MAXOPBLOCKS
    ensures p < |ops| && ops[p].Running? ==>
              CountRunning(ops) > 0 && Reserved(ops) >= MAXOPBLOCKS - ops[p].added
  {
    if ops != [] { SumBounds(ops[1..], if p == 0 then 0 else p - 1); }
  }

  lemma {:induction false} SumWake(ops: seq<Op>)
    ensures CountRunning(WakeAll(ops)) == CountRunning(ops)
    ensures Reserved(WakeAll(ops)) == Reserved(ops)
  {
    if ops != [] {
      assert WakeAll(ops)[1..] == WakeAll(ops[1..]);
      SumWake(ops[1..]);
    }
  }

  lemma {:induction false} SumOutside(ops: seq<Op>)
    requires forall p | 0 <= p < |ops| :: ops[p].Outside?
    ensures CountRunning(ops) == 0 && Reserved(ops) == 0
  {
    if ops != [] { SumOutside(ops[1..]); }
  }

  lemma {:induction false} NoneRunning(ops: seq<Op>, p: nat)
    requires CountRunning(ops) == 0 && p < |ops|
    ensures !ops[p].Running? && Reserved(ops) == 0
  {
    if |ops| > 1 { NoneRunning(ops[1..], if p == 0 then 0 else p - 1); }
  }
}
