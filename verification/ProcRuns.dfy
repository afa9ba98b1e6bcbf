// Whole runs of proc.c: any number of processes on any number of CPUs, with
// ptable.lock passed between a process and the scheduler across swtch().
module ProcRuns {
  import opened ProcTable

  // c->proc, and whose kernel stack the CPU is on (NONE: its scheduler's).
  datatype Cpu = Cpu(proc: int, thread: int)

  datatype Sys = Sys(
    ps: Table,
    cpus: seq<Cpu>,
    lock: int,            // the CPU that holds ptable.lock, or NONE
    init: nat,
    nextpid: nat,
    panicked: bool,
    reaped: seq<nat>)     // history: the pids that wait() returned

  datatype Step =
    | SchedAcquire(c: nat)
    | SchedSwitch(c: nat, p: nat)
    | SchedRelease(c: nat)
    | Swtch(c: nat)                  // in sched(), to the scheduler
    | Resume(c: nat)                 // back from sched()
    | Yield(c: nat)
    | Sleep(c: nat, k: nat)
    | Wakeup(k: nat)
    | Exit(c: nat)
    | Wait(c: nat)
    | AllocProc(c: nat, np: nat)
    | ForkFails(c: nat)
    | ForkParent(c: nat)
    | ForkDone(c: nat)
    | Kill(i: nat)

  // userinit() has made process init.
  ghost predicate Init(s: Sys) {
    && s.init < |s.ps| && s.lock == NONE && !s.panicked && s.reaped == []
    && (forall c | 0 <= c < |s.cpus| :: s.cpus[c] == Cpu(NONE, NONE))
    && (forall p | 0 <= p < |s.ps| && p != s.init ::
          && s.ps[p].state.Unused? && s.ps[p].parent == NONE
          && s.ps[p].at.Parked? && s.ps[p].on == NONE && s.ps[p].fork.NoFork?)
    && s.ps[s.init].on == NONE && s.ps[s.init].fork.NoFork?
    && s.ps[s.init].state.Runnable? && s.ps[s.init].parent == NONE
    && s.ps[s.init].at == Parked(FirstRun) && s.ps[s.init].pid < s.nextpid
  }

  // CPU c is in kernel or user code of a process that is not inside a
  // ptable critical section.
  predicate OnProcess(s: Sys, c: nat) {
    c < |s.cpus| && 0 <= s.cpus[c].thread < |s.ps|
  }

  predicate FreeOn(s: Sys, c: nat) {
    OnProcess(s, c) && s.ps[s.cpus[c].thread].at.Free?
  }

  // Nor in the middle of fork().
  predicate IdleOn(s: Sys, c: nat) {
    FreeOn(s, c) && s.ps[s.cpus[c].thread].fork.NoFork?
  }

  predicate SchedulerOn(s: Sys, c: nat) {
    c < |s.cpus| && s.cpus[c].thread == NONE
  }

  ghost predicate Enabled(s: Sys, t: Step) {
    !s.panicked &&
    match t
    case SchedAcquire(c) => SchedulerOn(s, c) && s.lock == NONE
    case SchedSwitch(c, p) => SchedulerOn(s, c) && s.lock == c && p < |s.ps| && s.ps[p].state.Runnable?
    case SchedRelease(c) => SchedulerOn(s, c) && s.lock == c
    case Swtch(c) => OnProcess(s, c) && s.ps[s.cpus[c].thread].at.ToSched?
    case Resume(c) => OnProcess(s, c) && s.ps[s.cpus[c].thread].at.Resumed?
    // By the clock interrupt: at any point, fork() included.
    case Yield(c) => FreeOn(s, c) && s.lock == NONE
    case Sleep(c, k) => IdleOn(s, c) && s.lock == NONE
    case Wakeup(k) => s.lock == NONE
    case Exit(c) => IdleOn(s, c) && s.lock == NONE && s.init < |s.ps|
    case Wait(c) => IdleOn(s, c) && s.lock == NONE
    case AllocProc(c, np) => IdleOn(s, c) && s.lock == NONE && np < |s.ps| && s.ps[np].state.Unused?
    // The next two run without the lock.
    case ForkFails(c) => FreeOn(s, c) && ForkingOf(s, c) < |s.ps|
    case ForkParent(c) => FreeOn(s, c) && ForkingOf(s, c) < |s.ps|
    case ForkDone(c) => FreeOn(s, c) && ReadyOf(s, c) < |s.ps| && s.lock == NONE
    case Kill(i) => i < |s.ps| && s.lock == NONE
  }

  // The entry that the process on CPU c is forking, or the table's size.
  function ForkingOf(s: Sys, c: nat): nat
    requires OnProcess(s, c)
  {
    var fork := s.ps[s.cpus[c].thread].fork;
    if fork.Forking? then fork.np else |s.ps|
  }

  function ReadyOf(s: Sys, c: nat): nat
    requires OnProcess(s, c)
  {
    var fork := s.ps[s.cpus[c].thread].fork;
    if fork.ForkReady? then fork.np else |s.ps|
  }

  function SetAt(ps: Table, p: nat, at: At): Table
    requires p < |ps|
  {
    ps[p := ps[p].(at := at)]
  }

  function SetFork(ps: Table, p: nat, fork: Fork): Table
    requires p < |ps|
  {
    ps[p := ps[p].(fork := fork)]
  }

  // wait()'s loop body, with the lock held by CPU c.
  ghost function DoWait(s: Sys, c: nat, p: nat): Sys
    requires p < |s.ps|
  {
    if HasZombie(s.ps, p) then
      var z := FirstZombie(s.ps, p);
      s.(ps := SetAt(s.ps[z := Released(s.ps[z])], p, Free), lock := NONE,
         reaped := s.reaped + [s.ps[z].pid])
    else if s.ps[p].killed || (forall i | 0 <= i < |s.ps| :: s.ps[i].parent != p) then
      s.(ps := SetAt(s.ps, p, Free), lock := NONE)
    else
      s.(ps := s.ps[p := s.ps[p].(state := Sleeping, chan := OnProc(p), at := ToSched(WaitGoesOn))],
         lock := c)
  }

  ghost function FirstZombie(ps: Table, p: nat): (z: nat)
    requires HasZombie(ps, p)
    ensures ZombieChild(ps, p, z) && forall i | 0 <= i < z :: !ZombieChild(ps, p, i)
  {
    var y: nat :| ZombieChild(ps, p, y);
    LeastZombie(ps, p, y)
  }

  ghost function LeastZombie(ps: Table, p: nat, y: nat): (z: nat)
    requires ZombieChild(ps, p, y)
    ensures ZombieChild(ps, p, z) && forall i | 0 <= i < z :: !ZombieChild(ps, p, i)
    decreases y
  {
    if exists i :: 0 <= i < y && ZombieChild(ps, p, i)
    then var i: nat :| i < y && ZombieChild(ps, p, i); LeastZombie(ps, p, i)
    else y
  }

  // After sched() returns: tidy up, and release the lock or scan again.
  ghost function DoResume(s: Sys, c: nat, p: nat): Sys
    requires p < |s.ps| && s.ps[p].at.Resumed?
  {
    match s.ps[p].at.r
    case Never => s.(panicked := true)          // "zombie exit"
    case WaitGoesOn => DoWait(s.(ps := s.ps[p := s.ps[p].(chan := NoChan)]), c, p)
    case SleepEnds => s.(ps := s.ps[p := s.ps[p].(chan := NoChan, at := Free)], lock := NONE)
    case YieldEnds => s.(ps := SetAt(s.ps, p, Free), lock := NONE)
    case FirstRun => s.(ps := SetAt(s.ps, p, Free), lock := NONE)
  }

  ghost function Do(s: Sys, t: Step): Sys
    requires Enabled(s, t)
  {
    match t
    case SchedAcquire(c) => s.(lock := c)
    case SchedSwitch(c, p) =>
      var x := s.ps[p];
      var at := if x.at.Parked? then Resumed(x.at.r) else x.at;
      s.(ps := s.ps[p := x.(state := Running, at := at, on := c)], cpus := s.cpus[c := Cpu(p, p)])
    case SchedRelease(c) => s.(lock := NONE)
    case Swtch(c) =>
      var p := s.cpus[c].thread;
      if s.lock != c || s.ps[p].state.Running? then s.(panicked := true)
      else s.(ps := s.ps[p := s.ps[p].(at := Parked(s.ps[p].at.r), on := NONE)],
              cpus := s.cpus[c := Cpu(NONE, NONE)])
    case Resume(c) => DoResume(s, c, s.cpus[c].thread)
    case Yield(c) =>
      var p := s.cpus[c].thread;
      s.(ps := s.ps[p := s.ps[p].(state := Runnable, at := ToSched(YieldEnds))], lock := c)
    case Sleep(c, k) =>
      var p := s.cpus[c].thread;
      s.(ps := s.ps[p := s.ps[p].(state := Sleeping, chan := Other(k), at := ToSched(SleepEnds))],
         lock := c)
    case Wakeup(k) => s.(ps := Wake(s.ps, Other(k)))
    case Exit(c) =>
      var p := s.cpus[c].thread;
      if p == s.init then s.(panicked := true)    // "init exiting"
      else s.(ps := Exited(s.ps, p, s.init), lock := c)
    case Wait(c) => DoWait(s, c, s.cpus[c].thread)
    case AllocProc(c, np) =>
      var ps := s.ps[np := s.ps[np].(state := Embryo, pid := s.nextpid)];
      s.(ps := SetFork(ps, s.cpus[c].thread, Forking(np)), nextpid := s.nextpid + 1)
    case ForkFails(c) =>
      var np := ForkingOf(s, c);
      s.(ps := SetFork(s.ps[np := s.ps[np].(state := Unused)], s.cpus[c].thread, NoFork))
    case ForkParent(c) =>
      var p, np := s.cpus[c].thread, ForkingOf(s, c);
      s.(ps := SetFork(s.ps[np := s.ps[np].(parent := p)], p, ForkReady(np)))
    case ForkDone(c) =>
      var np := ReadyOf(s, c);
      s.(ps := SetFork(s.ps[np := s.ps[np].(state := Runnable, at := Parked(FirstRun))],
                       s.cpus[c].thread, NoFork))
    case Kill(i) => s.(ps := s.ps[i := KilledProc(s.ps[i])])
  }

  ghost function Next(s: Sys, t: Step): Sys {
    if Enabled(s, t) then Do(s, t) else s
  }

  ghost function Run(s: Sys, ts: seq<Step>): Sys {
    if ts == [] then s else Next(Run(s, ts[..|ts| - 1]), ts[|ts| - 1])
  }

  // ---- The invariant ----

  // The CPUs and the processes agree about who is where.
  ghost predicate CpusOk(s: Sys) {
    && (s.lock == NONE || 0 <= s.lock < |s.cpus|)
    && (forall c | 0 <= c < |s.cpus| && s.cpus[c].thread != NONE ::
          var p := s.cpus[c].thread;
          0 <= p < |s.ps| && s.ps[p].on == c && s.cpus[c].proc == p)
    && (forall p | 0 <= p < |s.ps| && s.ps[p].on != NONE ::
          0 <= s.ps[p].on < |s.cpus| && s.cpus[s.ps[p].on].thread == p)
  }

  // Out of the CPU, or still on it but about to switch, with the lock held.
  ghost predicate Leaving(x: Proc, lock: int) {
    (x.at.Parked? && x.on == NONE) || (x.at.ToSched? && x.on != NONE && lock == x.on)
  }

  // In fork() a process is in no sleep: it runs, or a clock tick took it off.
  ghost predicate ForkPlace(x: Proc) {
    x.fork.NoFork? || x.at.Free? || x.at.r.YieldEnds?
  }

  // Entry p, given who holds the lock.
  ghost predicate ProcOk(x: Proc, p: nat, lock: int) {
    match x.state
    case Unused => x.at.Parked? && x.on == NONE && x.fork.NoFork?
    case Embryo => x.at.Parked? && x.on == NONE && x.fork.NoFork?
    case Running =>
      && x.on != NONE && ForkPlace(x)
      && (x.at.Free? || (x.at.Resumed? && !x.at.r.Never? && lock == x.on))
    case Runnable => Leaving(x, lock) && !x.at.r.Never? && ForkPlace(x)
    case Sleeping =>
      && Leaving(x, lock) && x.fork.NoFork?
      && ((x.at.r.SleepEnds? && x.chan.Other?) || (x.at.r.WaitGoesOn? && x.chan == OnProc(p)))
    case Zombie => Leaving(x, lock) && x.at.r.Never? && x.fork.NoFork?
  }

  ghost predicate ProcsOk(ps: Table, lock: int) {
    forall p | 0 <= p < |ps| :: ProcOk(ps[p], p, lock)
  }

  // The family tree: all who live, and all zombies, have a live parent.
  ghost predicate KinOk(ps: Table, init: nat, p: nat)
    requires p < |ps|
  {
    var q := ps[p].parent;
    if p == init then Live(ps[p].state) && q == NONE
    else match ps[p].state
      case Unused => q == NONE
      case Embryo => q == NONE || (0 <= q < |ps| && ps[q].fork == ForkReady(p) && q != p)
      case Sleeping => HasLiveParent(ps, p)
      case Runnable => HasLiveParent(ps, p)
      case Running => HasLiveParent(ps, p)
      case Zombie => HasLiveParent(ps, p)
  }

  ghost predicate HasLiveParent(ps: Table, p: nat)
    requires p < |ps|
  {
    var q := ps[p].parent;
    0 <= q < |ps| && q != p && Live(ps[q].state)
  }

  ghost predicate FamilyOk(ps: Table, init: nat) {
    init < |ps| && forall p | 0 <= p < |ps| :: KinOk(ps, init, p)
  }

  // Forks in progress: each has its own embryo.
  ghost predicate ForkOk(ps: Table, p: nat)
    requires p < |ps|
  {
    match ps[p].fork
    case NoFork => true
    case Forking(np) => np < |ps| && ps[np].state.Embryo? && ps[np].parent == NONE
    case ForkReady(np) => np < |ps| && ps[np].state.Embryo? && ps[np].parent == p
  }

  ghost predicate ForksOk(ps: Table) {
    && (forall p | 0 <= p < |ps| :: ForkOk(ps, p))
    && (forall p, q | 0 <= p < |ps| && 0 <= q < |ps| && ps[p].fork.Forking? && ps[q].fork == ps[p].fork :: p == q)
  }

  // Nobody sleeps in wait() while having a zombie child.
  ghost predicate NoLostChild(ps: Table) {
    forall p, z | 0 <= p < |ps| && 0 <= z < |ps| && ps[z].parent == p && ps[z].state.Zombie? ::
      !(ps[p].state.Sleeping? && ps[p].chan == OnProc(p))
  }

  ghost predicate PidsOk(ps: Table, nextpid: nat, reaped: seq<nat>) {
    && (forall p | 0 <= p < |ps| && !ps[p].state.Unused? :: ps[p].pid < nextpid && ps[p].pid !in reaped)
    && (forall p, q | 0 <= p < |ps| && 0 <= q < |ps| && p != q
                      && !ps[p].state.Unused? && !ps[q].state.Unused? ::
          ps[p].pid != ps[q].pid)
    && (forall i | 0 <= i < |reaped| :: reaped[i] < nextpid)
    && (forall i, j | 0 <= i < j < |reaped| :: reaped[i] != reaped[j])
  }

  // The part of the invariant that is about the table alone.
  ghost predicate TableOk(ps: Table, init: nat, nextpid: nat, reaped: seq<nat>) {
    FamilyOk(ps, init) && ForksOk(ps) && NoLostChild(ps) && PidsOk(ps, nextpid, reaped)
  }

  ghost predicate Inv(s: Sys) {
    CpusOk(s) && ProcsOk(s.ps, s.lock) && TableOk(s.ps, s.init, s.nextpid, s.reaped)
  }
}
