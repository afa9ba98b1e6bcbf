// What proc.c promises about every reachable state of every run.
module ProcTheorems {
  import opened ProcTable
  import opened ProcRuns
  import opened ProcSafety

  lemma {:induction false} RunInv(s: Sys, ts: seq<Step>)
    requires Init(s)
    ensures Inv(Run(s, ts))
  {
    if ts == [] {
      InitInv(s);
    } else {
      RunInv(s, ts[..|ts| - 1]);
      NextInv(Run(s, ts[..|ts| - 1]), ts[|ts| - 1]);
    }
  }

  ghost predicate Reachable(s: Sys) {
    exists s0, ts :: Init(s0) && s == Run(s0, ts)
  }

  lemma ReachableInv(s: Sys)
    requires Reachable(s)
    ensures Inv(s)
  {
    var s0, ts :| Init(s0) && s == Run(s0, ts);
    RunInv(s0, ts);
  }

  // ---- wait and exit never miss each other ----

  // A parent inside wait() with a zombie child is not asleep: it is about
  // to scan the table again.
  lemma NoMissedExit(s: Sys, p: nat, z: nat)
    requires Reachable(s) && p < |s.ps| && ZombieChild(s.ps, p, z)
    ensures !(s.ps[p].state.Sleeping? && s.ps[p].chan == OnProc(p))
    ensures s.ps[p].at == Parked(WaitGoesOn) ==> s.ps[p].state.Runnable?
  {
    ReachableInv(s);
    assert ProcOk(s.ps[p], p, s.lock) && KinOk(s.ps, s.init, z);
  }

  // Every process but init, alive or zombie, has a live parent.
  lemma NoOrphans(s: Sys, p: nat)
    requires Reachable(s) && p < |s.ps| && p != s.init
    requires Live(s.ps[p].state) || s.ps[p].state.Zombie?
    ensures 0 <= s.ps[p].parent < |s.ps| && s.ps[p].parent != p
    ensures Live(s.ps[s.ps[p].parent].state)
  {
    ReachableInv(s);
    assert KinOk(s.ps, s.init, p);
  }

  lemma InitLives(s: Sys)
    requires Reachable(s)
    ensures s.init < |s.ps| && Live(s.ps[s.init].state)
  {
    ReachableInv(s);
    assert KinOk(s.ps, s.init, s.init);
  }

  // ---- The CPUs ----

  // A RUNNING process is on one CPU, no kernel stack is in use on two, and
  // a CPU on the stack of a process that is not RUNNING holds the lock.
  lemma OneCpuEach(s: Sys, p: nat)
    requires Reachable(s) && p < |s.ps|
    ensures forall c, d | 0 <= c < |s.cpus| && 0 <= d < |s.cpus| ::
              s.cpus[c].thread == p && s.cpus[d].thread == p ==> c == d
    ensures s.ps[p].state.Running? ==>
              exists c :: 0 <= c < |s.cpus| && s.cpus[c] == Cpu(p, p)
    ensures forall c | 0 <= c < |s.cpus| && s.cpus[c].thread == p ::
              s.ps[p].state.Running? || s.lock == c
  {
    ReachableInv(s);
    assert ProcOk(s.ps[p], p, s.lock);
    if s.ps[p].state.Running? {
      var c := s.ps[p].on;
      assert s.cpus[c] == Cpu(p, p);
    }
  }

  // The lock is held across swtch(), by the CPU on which it happens.
  lemma LockHeldAcrossSwitch(s: Sys, c: nat)
    requires Reachable(s) && OnProcess(s, c)
    requires s.ps[s.cpus[c].thread].at.ToSched? || s.ps[s.cpus[c].thread].at.Resumed?
    ensures s.lock == c
  {
    ReachableInv(s);
    var p := s.cpus[c].thread;
    assert ProcOk(s.ps[p], p, s.lock);
  }

  // ---- fork ----

  // Wherever a clock tick finds the parent, the entry it is forking is an
  // embryo that nobody else is forking, and no one's child until it is ready.
  lemma OneForkPerEmbryo(s: Sys, p: nat, q: nat)
    requires Reachable(s) && p < |s.ps| && q < |s.ps| && !s.ps[p].fork.NoFork?
    ensures s.ps[p].fork.np < |s.ps| && s.ps[s.ps[p].fork.np].state.Embryo?
    ensures s.ps[s.ps[p].fork.np].parent == if s.ps[p].fork.ForkReady? then p else NONE
    ensures !s.ps[q].fork.NoFork? && s.ps[q].fork.np == s.ps[p].fork.np ==> p == q
  {
    ReachableInv(s);
    assert ForkOk(s.ps, p) && ForkOk(s.ps, q);
  }

  // A tick in the middle of fork(): two steps later the parent is off its
  // CPU, runnable, and where it was in fork().
  lemma PreemptedInFork(s: Sys, c: nat)
    requires Reachable(s) && Enabled(s, Yield(c))
    ensures var p := s.cpus[c].thread; var s' := Next(Next(s, Yield(c)), Swtch(c));
      && |s'.ps| == |s.ps| && !s'.panicked && SchedulerOn(s', c)
      && s'.ps[p].state.Runnable? && s'.ps[p].at == Parked(YieldEnds) && s'.ps[p].on == NONE
      && s'.ps[p].fork == s.ps[p].fork
  {
    ReachableInv(s);
    var p := s.cpus[c].thread;
    var s1 := Next(s, Yield(c));
    YieldSleepInv(s, Yield(c));
    assert Enabled(s1, Swtch(c));
  }

  // ---- Reaping ----

  // The step from s to s2 releases the entry of p's child z.
  ghost predicate Reaps(s: Sys, s2: Sys, p: nat, z: nat) {
    && ZombieChild(s.ps, p, z) && p < |s.ps| && s.ps[p].state.Running?
    && s2.reaped == s.reaped + [s.ps[z].pid]
    && |s2.ps| == |s.ps| && s2.ps[z] == Released(s.ps[z])
  }

  lemma DoWaitReaps(s: Sys, c: nat, p: nat) returns (z: nat)
    requires p < |s.ps| && s.ps[p].state.Running? && DoWait(s, c, p).reaped != s.reaped
    ensures Reaps(s, DoWait(s, c, p), p, z)
  {
    z := FirstZombie(s.ps, p);
  }

  lemma NextReaps(s: Sys, t: Step) returns (p: nat, z: nat)
    requires CpusOk(s) && ProcsOk(s.ps, s.lock) && Next(s, t).reaped != s.reaped
    ensures Reaps(s, Next(s, t), p, z)
    ensures s.lock == NONE || s.lock == s.ps[p].on
  {
    assert t.Wait? || (t.Resume? && s.ps[s.cpus[t.c].thread].at.r.WaitGoesOn?);
    p := s.cpus[t.c].thread;
    assert ProcOk(s.ps[p], p, s.lock);
    var s1 := if t.Wait? then s else s.(ps := s.ps[p := s.ps[p].(chan := NoChan)]);
    z := DoWaitReaps(s1, t.c, p);
  }

  // The step that reaps a zombie is its parent's, the stack it frees is on
  // no CPU, and the entry it releases is nobody's parent.
  lemma ReapsOnlySwitchedOff(s: Sys, t: Step)
    requires Reachable(s) && Next(s, t).reaped != s.reaped
    ensures exists p: nat, z: nat ::
              && Reaps(s, Next(s, t), p, z)
              && (forall c | 0 <= c < |s.cpus| :: s.cpus[c].thread != z)
              && (forall q | 0 <= q < |s.ps| :: s.ps[q].parent != z)
  {
    hide DoWait, DoResume, Do, Next;
    ReachableInv(s);
    var p, z := NextReaps(s, t);
    ZombieIsOff(s, p, z);
    NobodysParent(s.ps, s.init, z);
  }

  lemma NobodysParent(ps: Table, init: nat, z: nat)
    requires FamilyOk(ps, init) && z < |ps| && ps[z].state.Zombie?
    requires ps[z].fork.NoFork?
    ensures forall q | 0 <= q < |ps| :: ps[q].parent != z
  {
    forall q | 0 <= q < |ps| ensures ps[q].parent != z { assert KinOk(ps, init, q); }
  }

  // wait() returns every pid at most once, and no process in the table has
  // the pid of one that has been waited for.
  lemma ReapedOnce(s: Sys)
    requires Reachable(s)
    ensures forall i, j | 0 <= i < j < |s.reaped| :: s.reaped[i] != s.reaped[j]
    ensures forall p | 0 <= p < |s.ps| && !s.ps[p].state.Unused? :: s.ps[p].pid !in s.reaped
    ensures forall p, q | 0 <= p < |s.ps| && 0 <= q < |s.ps| && p != q
              && !s.ps[p].state.Unused? && !s.ps[q].state.Unused? :: s.ps[p].pid != s.ps[q].pid
  {
    ReachableInv(s);
  }

  // ---- Panics ----

  // sched()'s and exit()'s panics are unreachable but for init's exit.
  lemma {:induction false} OnlyInitPanics(s: Sys, ts: seq<Step>)
    requires Init(s) && Run(s, ts).panicked
    ensures exists i ::
              && 0 <= i < |ts| && ts[i].Exit? && ts[i].c < |s.cpus|
              && |Run(s, ts[..i]).cpus| == |s.cpus|
              && Run(s, ts[..i]).cpus[ts[i].c].thread == s.init
  {
    var k := |ts| - 1;
    var u := Run(s, ts[..k]);
    RunInv(s, ts[..k]);
    RunShape(s, ts[..k]);
    if u.panicked {
      OnlyInitPanics(s, ts[..k]);
      var i :| 0 <= i < k && ts[..k][i].Exit? && ts[..k][i].c < |s.cpus|
        && |Run(s, ts[..k][..i]).cpus| == |s.cpus|
        && Run(s, ts[..k][..i]).cpus[ts[..k][i].c].thread == s.init;
      assert ts[..k][..i] == ts[..i];
    } else {
      NextInv(u, ts[k]);
    }
  }

  lemma {:induction false} RunShape(s: Sys, ts: seq<Step>)
    requires Init(s)
    ensures Run(s, ts).init == s.init && |Run(s, ts).cpus| == |s.cpus|
  {
    if ts != [] {
      RunShape(s, ts[..|ts| - 1]);
    }
  }

  // ---- The scan of the table ----

  // wait()'s step is what its scan finds.
  lemma WaitIsScan(s: Sys, c: nat, p: nat, r: WaitResult)
    requires p < |s.ps| && WaitFinds(s.ps, p, r)
    ensures match r
            case Reaped(z, pid) =>
              DoWait(s, c, p) == s.(ps := SetAt(s.ps[z := Released(s.ps[z])], p, Free), lock := NONE,
                                    reaped := s.reaped + [pid])
            case NoChildren => DoWait(s, c, p) == s.(ps := SetAt(s.ps, p, Free), lock := NONE)
            case WasKilled => DoWait(s, c, p) == s.(ps := SetAt(s.ps, p, Free), lock := NONE)
            case MustSleep => DoWait(s, c, p).ps[p].state.Sleeping? && DoWait(s, c, p).lock == c
  {
    if r.Reaped? {
      var y := FirstZombie(s.ps, p);
      assert y == r.z by { if y < r.z { } else if r.z < y { } }
    }
  }
}
