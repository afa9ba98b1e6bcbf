// The interrupt-driven disk queue of ide.c, and the synchronous driver of
// memide.c as its specification.
module Ide {
  import opened Blocks

  const NONE: int := -1

  // What the driver sees of a buffer.
  datatype Req = Req(blockno: nat, valid: bool, dirty: bool, data: Block)

  type Disk = seq<Block>

  // iderw()'s second guard.
  predicate NothingToDo(x: Req) {
    x.valid && !x.dirty
  }

  // ---- memide.c: one request, at once ----

  function SyncReq(x: Req, d: Disk): Req
    requires x.blockno < |d|
  {
    x.(valid := true, dirty := false, data := if x.dirty then x.data else d[x.blockno])
  }

  function SyncDisk(x: Req, d: Disk): Disk
    requires x.blockno < |d|
  {
    if x.dirty then d[x.blockno := x.data] else d
  }

  // ---- ide.c ----

  // The controller: the command idestart() gave it, and once it has carried
  // that out, the sector it read.
  datatype Device =
    | Off
    | Busy(write: bool, blockno: nat, data: Block)
    | Done(data: Block)

  // A user of buffer b: not in iderw(), asleep on b, or awake again.
  datatype User = Idle | Asleep | Awake

  // submitted is the history of all requests; the first `done` are complete.
  datatype Sys = Sys(
    bufs: seq<Req>,
    users: seq<User>,
    queue: seq<nat>,
    dev: Device,
    disk: Disk,
    submitted: seq<nat>,
    done: nat)

  datatype Step =
    | Use(b: nat, x: Req)      // the lock holder changes the buffer
    | Submit(b: nat)           // iderw(), up to its sleep
    | Perform                  // the controller carries out its command
    | Interrupt                // ideintr()
    | Return(b: nat)           // iderw()'s loop after a wakeup

  function Started(x: Req): Device {
    Busy(x.dirty, x.blockno, x.data)
  }

  predicate Enabled(s: Sys, t: Step) {
    match t
    case Use(b, x) => b < |s.bufs| == |s.users| && s.users[b].Idle? && x.blockno < |s.disk|
    case Submit(b) =>
      b < |s.bufs| == |s.users| && s.users[b].Idle? && !NothingToDo(s.bufs[b]) && s.bufs[b].blockno < |s.disk|
    case Perform => s.dev.Busy? && s.dev.blockno < |s.disk|
    // One interrupt for each command.
    case Interrupt =>
      && s.dev.Done? && |s.users| == |s.bufs| && s.queue != [] && s.queue[0] < |s.bufs|
      && (|s.queue| > 1 ==> s.queue[1] < |s.bufs|)
    case Return(b) => b < |s.bufs| == |s.users| && s.users[b].Awake?
  }

  // ideintr() on the active buffer.
  function Completed(x: Req, data: Block): Req {
    x.(valid := true, dirty := false, data := if x.dirty then x.data else data)
  }

  function Do(s: Sys, t: Step): Sys
    requires Enabled(s, t)
  {
    match t
    case Use(b, x) => s.(bufs := s.bufs[b := x])
    case Submit(b) =>
      s.(queue := s.queue + [b], submitted := s.submitted + [b], users := s.users[b := Asleep],
         dev := if s.queue == [] then Started(s.bufs[b]) else s.dev)
    case Perform =>
      s.(dev := Done(s.disk[s.dev.blockno]),
         disk := if s.dev.write then s.disk[s.dev.blockno := s.dev.data] else s.disk)
    case Interrupt =>
      var b := s.queue[0];
      s.(queue := s.queue[1..], done := s.done + 1, bufs := s.bufs[b := Completed(s.bufs[b], s.dev.data)],
         users := s.users[b := if s.users[b].Asleep? then Awake else s.users[b]],
         dev := if |s.queue| > 1 then Started(s.bufs[s.queue[1]]) else Off)
    case Return(b) => s.(users := s.users[b := if NothingToDo(s.bufs[b]) then Idle else Asleep])
  }

  function Next(s: Sys, t: Step): Sys {
    if Enabled(s, t) then Do(s, t) else s
  }

  function Run(s: Sys, ts: seq<Step>): Sys {
    if ts == [] then s else Next(Run(s, ts[..|ts| - 1]), ts[|ts| - 1])
  }

  predicate Init(s: Sys) {
    && s.queue == [] && s.dev.Off? && s.submitted == [] && s.done == 0 && |s.users| == |s.bufs|
    && (forall b | 0 <= b < |s.users| :: s.users[b].Idle?)
    && (forall b | 0 <= b < |s.bufs| :: s.bufs[b].blockno < |s.disk|)
  }

  // ---- The invariant ----

  predicate Distinct(q: seq<nat>) {
    forall i, j | 0 <= i < j < |q| :: q[i] != q[j]
  }

  // The queue is what was submitted and is not complete; its members are
  // asleep with work to do, and nobody else is asleep.
  predicate QueueOk(bufs: seq<Req>, users: seq<User>, queue: seq<nat>) {
    && |users| == |bufs| && Distinct(queue)
    && (forall i | 0 <= i < |queue| :: queue[i] < |bufs| && users[queue[i]].Asleep? && !NothingToDo(bufs[queue[i]]))
    && (forall b | 0 <= b < |users| && users[b].Asleep? :: b in queue)
    && (forall b | 0 <= b < |users| && users[b].Awake? :: NothingToDo(bufs[b]))
  }

  predicate HistoryOk(submitted: seq<nat>, done: nat, queue: seq<nat>) {
    done <= |submitted| && submitted[done..] == queue
  }

  // The controller works on the head of the queue.
  predicate DeviceOk(s: Sys) {
    match s.dev
    case Off => s.queue == []
    case Busy(_, _, _) =>
      s.queue != [] && s.queue[0] < |s.bufs| && s.dev == Started(s.bufs[s.queue[0]])
    case Done(data) =>
      && s.queue != [] && s.queue[0] < |s.bufs| && s.bufs[s.queue[0]].blockno < |s.disk|
      && (if s.bufs[s.queue[0]].dirty then s.disk[s.bufs[s.queue[0]].blockno] == s.bufs[s.queue[0]].data
          else s.disk[s.bufs[s.queue[0]].blockno] == data)
  }

  predicate Inv(s: Sys) {
    && QueueOk(s.bufs, s.users, s.queue) && HistoryOk(s.submitted, s.done, s.queue) && DeviceOk(s)
    && forall b | 0 <= b < |s.bufs| :: s.bufs[b].blockno < |s.disk|
  }

  lemma SubmitQueue(bufs: seq<Req>, users: seq<User>, queue: seq<nat>, b: nat)
    requires QueueOk(bufs, users, queue) && b < |bufs| && users[b].Idle? && !NothingToDo(bufs[b])
    ensures QueueOk(bufs, users[b := Asleep], queue + [b])
  {
    var users', queue' := users[b := Asleep], queue + [b];
    assert queue'[|queue|] == b;
    forall c | 0 <= c < |users'| && users'[c].Asleep? ensures c in queue' {
      assert c == b || c in queue;
    }
  }

  lemma InterruptQueue(bufs: seq<Req>, users: seq<User>, queue: seq<nat>, y: Req)
    requires QueueOk(bufs, users, queue) && queue != [] && NothingToDo(y)
    ensures QueueOk(bufs[queue[0] := y], users[queue[0] := Awake], queue[1..])
  {
    var users' := users[queue[0] := Awake];
    forall c | 0 <= c < |users'| && users'[c].Asleep? ensures c in queue[1..] {
      assert c in queue && c != queue[0];
    }
  }

  lemma SubmitInv(s: Sys, t: Step)
    requires Inv(s) && Enabled(s, t) && t.Submit?
    ensures Inv(Do(s, t))
  {
    hide QueueOk;
    QueueFacts(s);
    SubmitQueue(s.bufs, s.users, s.queue, t.b);
    assert (s.submitted + [t.b])[s.done..] == s.submitted[s.done..] + [t.b];
  }

  // What is in the queue is there.
  lemma QueueFacts(s: Sys)
    requires QueueOk(s.bufs, s.users, s.queue)
    ensures |s.users| == |s.bufs|
    ensures s.queue != [] ==> s.queue[0] < |s.bufs| && s.users[s.queue[0]].Asleep?
    ensures |s.queue| > 1 ==> s.queue[1] < |s.bufs| && s.queue[1] != s.queue[0]
  {
  }

  lemma InterruptInv(s: Sys, t: Step)
    requires Inv(s) && Enabled(s, t) && t.Interrupt?
    ensures Inv(Do(s, t))
  {
    hide QueueOk;
    QueueFacts(s);
    InterruptQueue(s.bufs, s.users, s.queue, Completed(s.bufs[s.queue[0]], s.dev.data));
    assert s.submitted[s.done..][1..] == s.submitted[s.done + 1..];
  }

  lemma OtherInv(s: Sys, t: Step)
    requires Inv(s) && Enabled(s, t) && (t.Use? || t.Perform? || t.Return?)
    ensures Inv(Do(s, t))
  {
  }

  lemma NextInv(s: Sys, t: Step)
    requires Inv(s)
    ensures Inv(Next(s, t))
  {
    if Enabled(s, t) {
      match t
      case Submit(_) => SubmitInv(s, t);
      case Interrupt => InterruptInv(s, t);
      case Use(_, _) => OtherInv(s, t);
      case Perform => OtherInv(s, t);
      case Return(_) => OtherInv(s, t);
    }
  }

  lemma {:induction false} RunInv(s: Sys, ts: seq<Step>)
    requires Init(s)
    ensures Inv(Run(s, ts))
  {
    if ts != [] {
      RunInv(s, ts[..|ts| - 1]);
      NextInv(Run(s, ts[..|ts| - 1]), ts[|ts| - 1]);
    }
  }

  ghost predicate Reachable(s: Sys) {
    exists s0, ts :: Init(s0) && s == Run(s0, ts)
  }

  lemma ReachableInv(s: Sys)
    requires Reachable(s)
    ensures Inv(s)
  {
    var s0, ts :| Init(s0) && s == Run(s0, ts);
    RunInv(s0, ts);
  }

  // ---- Refinement of the synchronous driver ----

  datatype Mem = Mem(bufs: seq<Req>, disk: Disk)

  // The buffer's holder changes it, or calls memide.c's iderw().
  datatype MemStep = MemUse(b: nat, x: Req) | MemRw(b: nat)

  function MemNext(m: Mem, t: MemStep): Mem {
    match t
    case MemUse(b, x) => if b < |m.bufs| then m.(bufs := m.bufs[b := x]) else m
    case MemRw(b) =>
      if b < |m.bufs| && m.bufs[b].blockno < |m.disk| then
        Mem(m.bufs[b := SyncReq(m.bufs[b], m.disk)], SyncDisk(m.bufs[b], m.disk))
      else m
  }

  // memide.c's iderw(): a dirty buffer goes to its block, any other comes from
  // it, and nothing else changes; buffer and block then agree.
  lemma MemRwIs(m: Mem, b: nat, c: nat, k: nat)
    requires b < |m.bufs| && m.bufs[b].blockno < |m.disk| && c < |m.bufs| && k < |m.disk|
    ensures var m', x := MemNext(m, MemRw(b)), m.bufs[b];
      && |m'.bufs| == |m.bufs| && |m'.disk| == |m.disk|
      && m'.disk[k] == (if x.dirty && k == x.blockno then x.data else m.disk[k])
      && m'.bufs[c] == (if c != b then m.bufs[c] else Req(x.blockno, true, false, m'.disk[x.blockno]))
  {
  }

  function MemRun(m: Mem, ts: seq<MemStep>): Mem {
    if ts == [] then m else MemNext(MemRun(m, ts[..|ts| - 1]), ts[|ts| - 1])
  }

  // The driver's state seen as the synchronous one: a command that the
  // controller has carried out counts as done.
  function View(s: Sys): Mem {
    if s.dev.Done? && s.queue != [] && s.queue[0] < |s.bufs| then
      Mem(s.bufs[s.queue[0] := Completed(s.bufs[s.queue[0]], s.dev.data)], s.disk)
    else Mem(s.bufs, s.disk)
  }

  // The synchronous steps that a step amounts to.
  function Meaning(s: Sys, t: Step): seq<MemStep> {
    if !Enabled(s, t) then []
    else match t
      case Use(b, x) => [MemUse(b, x)]
      case Perform => if s.queue == [] then [] else [MemRw(s.queue[0])]
      case Submit(_) => []
      case Interrupt => []
      case Return(_) => []
  }

  function Trace(s: Sys, ts: seq<Step>): seq<MemStep> {
    if ts == [] then []
    else Trace(s, ts[..|ts| - 1]) + Meaning(Run(s, ts[..|ts| - 1]), ts[|ts| - 1])
  }

  lemma StepRefines(s: Sys, t: Step)
    requires Inv(s)
    ensures View(Next(s, t)) == MemRun(View(s), Meaning(s, t))
  {
    QueueFacts(s);
    if Enabled(s, t) && t.Use? {
      assert t.b !in s.queue;
      assert MemRun(View(s), [MemUse(t.b, t.x)]) == MemNext(View(s), MemUse(t.b, t.x)) by {
        assert [MemUse(t.b, t.x)][..0] == [];
      }
    } else if Enabled(s, t) && t.Perform? {
      var m := MemRw(s.queue[0]);
      assert MemRun(View(s), [m]) == MemNext(View(s), m) by { assert [m][..0] == []; }
    }
  }

  lemma {:induction false} MemRunAppend(m: Mem, us: seq<MemStep>, vs: seq<MemStep>)
    ensures MemRun(m, us + vs) == MemRun(MemRun(m, us), vs)
    decreases |vs|
  {
    if vs == [] {
      assert us + vs == us;
    } else {
      assert (us + vs)[..|us + vs| - 1] == us + vs[..|vs| - 1];
      MemRunAppend(m, us, vs[..|vs| - 1]);
    }
  }

  // Every run of the interrupt-driven driver is a run of the synchronous
  // one.
  lemma {:induction false} RunRefines(s: Sys, ts: seq<Step>)
    requires Init(s)
    ensures View(Run(s, ts)) == MemRun(View(s), Trace(s, ts))
  {
    if ts != [] {
      var pre, t := ts[..|ts| - 1], ts[|ts| - 1];
      RunRefines(s, pre);
      RunInv(s, pre);
      StepRefines(Run(s, pre), t);
      MemRunAppend(View(s), Trace(s, pre), Meaning(Run(s, pre), t));
    }
  }

  // The requests that a trace carries out, in order.
  function Carried(us: seq<MemStep>): seq<nat> {
    if us == [] then []
    else Carried(us[..|us| - 1]) + if us[|us| - 1].MemRw? then [us[|us| - 1].b] else []
  }

  lemma CarriedOne(us: seq<MemStep>, vs: seq<MemStep>)
    requires |vs| <= 1
    ensures Carried(us + vs) == Carried(us) + Carried(vs)
  {
    if vs == [] {
      assert us + vs == us;
    } else {
      assert (us + vs)[..|us|] == us && vs[..0] == [];
    }
  }

  function CarriedOut(s: Sys): nat {
    s.done + if s.dev.Done? then 1 else 0
  }

  lemma CarriedPerform(s: Sys)
    requires HistoryOk(s.submitted, s.done, s.queue) && s.queue != []
    ensures s.done < |s.submitted|
    ensures s.submitted[..s.done] + Carried([MemRw(s.queue[0])]) == s.submitted[..s.done + 1]
  {
    var b := s.queue[0];
    assert s.submitted[s.done..][0] == b;
    assert Carried([MemRw(b)]) == [b] by { assert [MemRw(b)][..0] == []; }
  }

  lemma CarriedStep(s: Sys, t: Step)
    requires HistoryOk(s.submitted, s.done, s.queue) && DeviceOk(s)
    ensures CarriedOut(s) <= |s.submitted| && CarriedOut(Next(s, t)) <= |Next(s, t).submitted|
    ensures s.submitted[..CarriedOut(s)] + Carried(Meaning(s, t)) ==
              Next(s, t).submitted[..CarriedOut(Next(s, t))]
  {
    var s', c := Next(s, t), CarriedOut(s);
    var prefix := s.submitted[..c];
    assert prefix + [] == prefix;
    if Enabled(s, t) && t.Perform? {
      CarriedPerform(s);
    } else if Enabled(s, t) && t.Use? {
      assert Carried([MemUse(t.b, t.x)]) == [] by { assert [MemUse(t.b, t.x)][..0] == []; }
    } else {
      assert CarriedOut(s') == c && s'.submitted[..c] == prefix;
    }
  }

  // The synchronous run carries out the submitted requests in the order of
  // their submission, each once.
  lemma {:induction false} FifoExactlyOnce(s: Sys, ts: seq<Step>)
    requires Init(s)
    ensures var s' := Run(s, ts);
      CarriedOut(s') <= |s'.submitted| && Carried(Trace(s, ts)) == s'.submitted[..CarriedOut(s')]
  {
    if ts != [] {
      var pre, t := ts[..|ts| - 1], ts[|ts| - 1];
      FifoExactlyOnce(s, pre);
      RunInv(s, pre);
      RunInv(s, ts);
      CarriedOne(Trace(s, pre), Meaning(Run(s, pre), t));
      CarriedStep(Run(s, pre), t);
    }
  }

  // When iderw() returns, its request is complete, and buffer and disk are
  // those of the synchronous run.
  lemma ReturnsSynced(s: Sys, ts: seq<Step>, b: nat)
    requires Init(s) && Enabled(Run(s, ts), Return(b))
    ensures var s' := Run(s, ts + [Return(b)]); var m := MemRun(View(s), Trace(s, ts));
      && s'.users[b].Idle? && s'.bufs[b].valid && !s'.bufs[b].dirty && b !in s'.queue
      && |m.bufs| == |s'.bufs| && s'.bufs[b] == m.bufs[b] && s'.disk == m.disk
  {
    assert (ts + [Return(b)])[..|ts|] == ts;
    RunInv(s, ts);
    RunRefines(s, ts);
  }

  // A user asleep in iderw() has its request in the queue, and the
  // controller is at work: an interrupt will come.
  lemma SleepersAreServed(s: Sys, b: nat)
    requires Reachable(s) && b < |s.users| && s.users[b].Asleep?
    ensures b in s.queue && !s.dev.Off?
  {
    ReachableInv(s);
  }
}
