// Who sleeps in proc.c and who is woken, whose child everyone is, and who is
// killed: what each step changes of these, and over whole runs.
module ProcSleep {
  import opened ProcTable
  import opened ProcRuns
  import opened ProcSafety
  import opened ProcTheorems

  // ---- Sleeping and waking ----

  ghost predicate Exits(s: Sys, t: Step, q: int) {
    Enabled(s, t) && t.Exit? && s.cpus[t.c].thread == q && q != s.init
  }

  // Step t wakes p, which sleeps: by a wakeup() on its channel, a kill, the
  // exit of a child, or for init the exit of one who had a zombie child.
  ghost predicate Wakes(s: Sys, t: Step, p: nat)
    requires p < |s.ps|
  {
    || (Enabled(s, t) && t.Wakeup? && s.ps[p].chan == Other(t.k))
    || (Enabled(s, t) && t.Kill? && t.i == p)
    || (exists q | 0 <= q < |s.ps| ::
          && Exits(s, t, q) && s.ps[p].chan == OnProc(p)
          && (s.ps[q].parent == p ||
              (p == s.init && exists z | 0 <= z < |s.ps| :: s.ps[z].parent == q && s.ps[z].state == Zombie)))
  }

  // A sleeper sleeps on, on the same channel, exactly until such a step.
  lemma SleepsUntilWoken(s: Sys, t: Step, p: nat)
    requires Reachable(s) && p < |s.ps| && s.ps[p].state == Sleeping
    ensures |Next(s, t).ps| == |s.ps| && Next(s, t).ps[p].chan == s.ps[p].chan
    ensures Next(s, t).ps[p].state == if Wakes(s, t, p) then Runnable else Sleeping
  {
    ReachableInv(s);
    StepOnSleeper(s, t, p);
  }

  lemma StepOnSleeper(s: Sys, t: Step, p: nat)
    requires Inv(s) && p < |s.ps| && s.ps[p].state == Sleeping
    ensures |Next(s, t).ps| == |s.ps| && Next(s, t).ps[p].chan == s.ps[p].chan
    ensures Next(s, t).ps[p].state == if Wakes(s, t, p) then Runnable else Sleeping
  {
    if Enabled(s, t) {
      if t.Exit? { ExitOnSleeper(s, t, p); } else { OtherOnSleeper(s, t, p); }
    }
  }

  lemma ExitOnSleeper(s: Sys, t: Step, p: nat)
    requires Inv(s) && Enabled(s, t) && t.Exit? && p < |s.ps| && s.ps[p].state == Sleeping
    ensures |Next(s, t).ps| == |s.ps| && Next(s, t).ps[p].chan == s.ps[p].chan
    ensures Next(s, t).ps[p].state == if Wakes(s, t, p) then Runnable else Sleeping
  {
    hide TableOk, Exited;
    var q := s.cpus[t.c].thread;
    assert ProcOk(s.ps[p], p, s.lock) && ProcOk(s.ps[q], q, s.lock);
    if q != s.init {
      ExitedIs(s.ps, q, s.init, p);
      assert Exits(s, t, q);
    }
  }

  lemma OtherOnSleeper(s: Sys, t: Step, p: nat)
    requires Inv(s) && Enabled(s, t) && !t.Exit? && p < |s.ps| && s.ps[p].state == Sleeping
    ensures |Next(s, t).ps| == |s.ps| && Next(s, t).ps[p].chan == s.ps[p].chan
    ensures Next(s, t).ps[p].state == if Wakes(s, t, p) then Runnable else Sleeping
  {
    hide CpusOk, TableOk, DoWait, DoResume;
    assert ProcOk(s.ps[p], p, s.lock);
    if t.ForkFails? || t.ForkParent? || t.ForkDone? {
      ForkStep(s, t);
    } else if t.Wait? || t.Resume? {
      WaitStep(s, t);
    }
  }

  // What fork()'s steps change: its own process, which is running, and the
  // embryo.
  lemma ForkStep(s: Sys, t: Step)
    requires Inv(s) && Enabled(s, t) && (t.ForkFails? || t.ForkParent? || t.ForkDone?)
    ensures var p, s' := s.cpus[t.c].thread, Next(s, t); var np := s.ps[p].fork.np;
      && !s.ps[p].fork.NoFork? && np < |s.ps| && s.ps[np].state == Embryo && s.ps[p].state == Running
      && |s'.ps| == |s.ps| && s'.ps[p] == s.ps[p].(fork := s'.ps[p].fork)
      && s'.ps[np] == s.ps[np].(state := s'.ps[np].state, parent := s'.ps[np].parent, at := s'.ps[np].at)
      && s'.ps[np].parent == (if t.ForkParent? then p else s.ps[np].parent)
      && (forall q | 0 <= q < |s.ps| && q != p && q != np :: s'.ps[q] == s.ps[q])
  {
    hide CpusOk, FamilyOk, NoLostChild, PidsOk;
    var p := s.cpus[t.c].thread;
    assert ForkOk(s.ps, p) && ProcOk(s.ps[p], p, s.lock);
  }

  // What a look of wait() changes, and the return from sched(): its own
  // process, which is running, and a zombie that it releases.
  lemma WaitStep(s: Sys, t: Step)
    requires Inv(s) && Enabled(s, t) && (t.Wait? || t.Resume?)
    ensures var p, s' := s.cpus[t.c].thread, Next(s, t);
      && |s'.ps| == |s.ps| && s.ps[p].state == Running
      && s'.ps[p].parent == s.ps[p].parent && s'.ps[p].killed == s.ps[p].killed
      && (forall q | 0 <= q < |s.ps| && q != p :: s'.ps[q] == s.ps[q] ||
            (s.ps[q].state == Zombie && s.ps[q].parent == p && s'.ps[q].state == Unused))
  {
    hide CpusOk, TableOk;
    var p := s.cpus[t.c].thread;
    assert ProcOk(s.ps[p], p, s.lock);
  }

  // sleep() and wakeup(): after wakeup(k) nobody sleeps on k, and no one else
  // has been touched.
  lemma SleepSleeps(s: Sys, c: nat, k: nat)
    requires Enabled(s, Sleep(c, k))
    ensures var x := s.ps[s.cpus[c].thread]; var s' := Next(s, Sleep(c, k));
      s'.ps == s.ps[s.cpus[c].thread := x.(state := Sleeping, chan := Other(k), at := ToSched(SleepEnds))]
  {
  }

  lemma WakeupWakes(s: Sys, k: nat, p: nat)
    requires Enabled(s, Wakeup(k)) && p < |s.ps|
    ensures var x, s' := s.ps[p], Next(s, Wakeup(k));
      && |s'.ps| == |s.ps|
      && s'.ps[p] == (if x.state == Sleeping && x.chan == Other(k) then x.(state := Runnable) else x)
      && !(s'.ps[p].state == Sleeping && s'.ps[p].chan == Other(k))
  {
  }

  // ---- The state diagram ----

  // Step t takes q from state a to state b.
  ghost predicate Edge(s: Sys, t: Step, q: nat, a: PState, b: PState)
    requires q < |s.ps|
  {
    && Enabled(s, t)
    && match (a, b)
       case (Unused, Embryo) => t.AllocProc? && t.np == q
       case (Embryo, Unused) => t.ForkFails? && s.ps[s.cpus[t.c].thread].fork == Forking(q)
       case (Embryo, Runnable) => t.ForkDone? && s.ps[s.cpus[t.c].thread].fork == ForkReady(q)
       case (Runnable, Running) => t.SchedSwitch? && t.p == q
       case (Running, Runnable) => t.Yield? && s.cpus[t.c].thread == q
       case (Running, Sleeping) => (t.Sleep? || t.Wait? || t.Resume?) && s.cpus[t.c].thread == q
       case (Running, Zombie) => Exits(s, t, q)
       case (Sleeping, Runnable) => Wakes(s, t, q)
       case (Zombie, Unused) => (t.Wait? || t.Resume?) && s.cpus[t.c].thread == s.ps[q].parent
       case (_, _) => false
  }

  // A step moves a process along an edge of the diagram, or not at all; and
  // the steps that must move one do.
  ghost predicate Moves(s: Sys, t: Step, q: nat)
    requires q < |s.ps| && |Next(s, t).ps| == |s.ps|
  {
    var a, b := s.ps[q].state, Next(s, t).ps[q].state;
    && (a == b || Edge(s, t, q, a, b))
    && forall b' | Edge(s, t, q, a, b') && !t.Wait? && !t.Resume? :: b == b'
  }

  lemma StateDiagram(s: Sys, t: Step, q: nat)
    requires Reachable(s) && q < |s.ps|
    ensures |Next(s, t).ps| == |s.ps| && Moves(s, t, q)
  {
    hide Inv, Do;
    ReachableInv(s);
    StepOnKin(s, t, q);
    if s.ps[q].state == Sleeping {
      StepOnSleeper(s, t, q);
    } else if !Enabled(s, t) {
      assert Next(s, t) == s;
    } else if t.Exit? {
      ExitMoves(s, t, q);
    } else if t.Wait? || t.Resume? {
      WaitMoves(s, t, q);
    } else if t.ForkFails? || t.ForkParent? || t.ForkDone? {
      ForkMoves(s, t, q);
    } else {
      OtherMoves(s, t, q);
    }
  }

  lemma ExitMoves(s: Sys, t: Step, q: nat)
    requires Inv(s) && Enabled(s, t) && t.Exit? && q < |s.ps| && s.ps[q].state != Sleeping
    ensures |Next(s, t).ps| == |s.ps| && Moves(s, t, q)
  {
    hide CpusOk, TableOk, Exited, Wakes;
    var p := s.cpus[t.c].thread;
    assert ProcOk(s.ps[p], p, s.lock);
    if p != s.init { ExitedIs(s.ps, p, s.init, q); }
  }

  lemma WaitMoves(s: Sys, t: Step, q: nat)
    requires Inv(s) && Enabled(s, t) && (t.Wait? || t.Resume?) && q < |s.ps| && s.ps[q].state != Sleeping
    ensures |Next(s, t).ps| == |s.ps| && Moves(s, t, q)
  {
    hide Inv, Next, Wakes;
    WaitStep(s, t);
    WaitSelf(s, t);
  }

  lemma ForkMoves(s: Sys, t: Step, q: nat)
    requires Inv(s) && Enabled(s, t) && (t.ForkFails? || t.ForkParent? || t.ForkDone?) && q < |s.ps|
    requires s.ps[q].state != Sleeping
    ensures |Next(s, t).ps| == |s.ps| && Moves(s, t, q)
  {
    hide CpusOk, ProcsOk, TableOk, Wakes;
    ForkStep(s, t);
  }

  lemma OtherMoves(s: Sys, t: Step, q: nat)
    requires Inv(s) && Enabled(s, t) && q < |s.ps| && s.ps[q].state != Sleeping
    requires !t.Exit? && !t.Wait? && !t.Resume? && !t.ForkFails? && !t.ForkParent? && !t.ForkDone?
    ensures |Next(s, t).ps| == |s.ps| && Moves(s, t, q)
  {
    hide CpusOk, TableOk, Wakes;
    if t.Swtch? || t.Yield? || t.Sleep? || t.AllocProc? {
      assert ProcOk(s.ps[s.cpus[t.c].thread], s.cpus[t.c].thread, s.lock);
    }
  }

  // wait() goes on running, or sleeps.
  lemma WaitSelf(s: Sys, t: Step)
    requires Inv(s) && Enabled(s, t) && (t.Wait? || t.Resume?)
    ensures |Next(s, t).ps| == |s.ps|
    ensures Next(s, t).ps[s.cpus[t.c].thread].state == Running || Next(s, t).ps[s.cpus[t.c].thread].state == Sleeping
  {
    hide CpusOk, TableOk;
    var p := s.cpus[t.c].thread;
    assert ProcOk(s.ps[p], p, s.lock);
  }

  // The scheduler runs a process where it was, and off sched() it goes back
  // to its caller with the lock released.
  lemma RunsWhereItWas(s: Sys, c: nat, p: nat)
    requires Reachable(s) && Enabled(s, SchedSwitch(c, p))
    ensures var x, s' := s.ps[p], Next(s, SchedSwitch(c, p));
      && x.at.Parked? && s'.ps == s.ps[p := x.(state := Running, at := Resumed(x.at.r), on := c)]
      && s'.cpus == s.cpus[c := Cpu(p, p)] && s'.lock == s.lock == c
  {
    hide TableOk;
    ReachableInv(s);
    assert ProcOk(s.ps[p], p, s.lock);
  }

  lemma ReturnsFromSched(s: Sys, c: nat)
    requires Reachable(s) && Enabled(s, Resume(c)) && s.ps[s.cpus[c].thread].at != Resumed(WaitGoesOn)
    ensures var p := s.cpus[c].thread; var x, s' := s.ps[p], Next(s, Resume(c));
      && x.state == Running && s'.lock == NONE && !s'.panicked
      && s'.ps == s.ps[p := x.(at := Free, chan := if x.at.r == SleepEnds then NoChan else x.chan)]
  {
    hide TableOk, DoWait;
    ReachableInv(s);
    assert ProcOk(s.ps[s.cpus[c].thread], s.cpus[c].thread, s.lock);
  }

  // ---- Whose child, and killed or not ----

  // An entry in use has the parent it had, unless fork() sets it, or its
  // parent exits: then it has init; and it is killed exactly by kill().
  lemma ParentAndKilled(s: Sys, t: Step, q: nat)
    requires Reachable(s) && q < |s.ps|
    ensures |Next(s, t).ps| == |s.ps|
    ensures var x, y := s.ps[q], Next(s, t).ps[q];
      y.state != Unused ==>
        && y.parent == (if x.parent >= 0 && Exits(s, t, x.parent) then s.init
                        else if ForksFrom(s, t, q) then s.cpus[t.c].thread else x.parent)
        && y.killed == (x.killed || (Enabled(s, t) && t == Kill(q)))
  {
    ReachableInv(s);
    StepOnKin(s, t, q);
  }

  lemma StepOnKin(s: Sys, t: Step, q: nat)
    requires Inv(s) && q < |s.ps|
    ensures |Next(s, t).ps| == |s.ps|
    ensures var x, y := s.ps[q], Next(s, t).ps[q];
      y.state != Unused ==>
        && y.parent == (if x.parent >= 0 && Exits(s, t, x.parent) then s.init
                        else if ForksFrom(s, t, q) then s.cpus[t.c].thread else x.parent)
        && y.killed == (x.killed || (Enabled(s, t) && t == Kill(q)))
  {
    if Enabled(s, t) {
      if t.Exit? { ExitOnKin(s, t, q); } else { OtherOnKin(s, t, q); }
    }
  }

  // fork() sets the parent of its new entry.
  ghost predicate ForksFrom(s: Sys, t: Step, q: nat) {
    Enabled(s, t) && t.ForkParent? && s.ps[s.cpus[t.c].thread].fork == Forking(q)
  }

  lemma ExitOnKin(s: Sys, t: Step, q: nat)
    requires Inv(s) && Enabled(s, t) && t.Exit? && q < |s.ps|
    ensures |Next(s, t).ps| == |s.ps|
    ensures var x, y := s.ps[q], Next(s, t).ps[q];
      && y.parent == (if x.parent >= 0 && Exits(s, t, x.parent) then s.init else x.parent)
      && y.killed == x.killed
  {
    hide TableOk, Exited;
    var p := s.cpus[t.c].thread;
    if p != s.init { ExitedIs(s.ps, p, s.init, q); }
  }

  lemma OtherOnKin(s: Sys, t: Step, q: nat)
    requires Inv(s) && Enabled(s, t) && !t.Exit? && q < |s.ps|
    ensures |Next(s, t).ps| == |s.ps|
    ensures var x, y := s.ps[q], Next(s, t).ps[q];
      y.state != Unused ==>
        && y.parent == (if ForksFrom(s, t, q) then s.cpus[t.c].thread else x.parent)
        && y.killed == (x.killed || t == Kill(q))
  {
    hide CpusOk, ProcsOk, TableOk, DoWait, DoResume;
    if t.ForkFails? || t.ForkParent? || t.ForkDone? {
      ForkStep(s, t);
    } else if t.Wait? || t.Resume? {
      WaitStep(s, t);
    }
  }

  // ---- wait ----

  // What wait() does when it looks, at first and whenever it is woken: it
  // reaps a zombie child if there is one, returns if it was killed or has no
  // child, and else sleeps on itself.
  ghost predicate Looks(s: Sys, t: Step) {
    && Enabled(s, t)
    && (t.Wait? || (t.Resume? && s.ps[s.cpus[t.c].thread].at == Resumed(WaitGoesOn)))
  }

  lemma WaitOutcome(s: Sys, t: Step)
    requires Reachable(s) && Looks(s, t)
    ensures var p := s.cpus[t.c].thread; var s' := Next(s, t);
      && |s'.ps| == |s.ps|
      && (s'.reaped != s.reaped <==> exists z | 0 <= z < |s.ps| :: s.ps[z].parent == p && s.ps[z].state == Zombie)
      && (s'.ps[p].state == Sleeping <==>
            && (exists i | 0 <= i < |s.ps| :: s.ps[i].parent == p)
            && (forall i | 0 <= i < |s.ps| && s.ps[i].parent == p :: s.ps[i].state != Zombie)
            && !s.ps[p].killed)
      && (s'.ps[p].state == Sleeping ==> s'.ps[p].chan == OnProc(p) && s'.lock == t.c)
      && (s'.ps[p].state != Sleeping ==> s'.ps[p] == s.ps[p].(at := Free, chan := s'.ps[p].chan) && s'.lock == NONE)
  {
    hide CpusOk, TableOk, DoWait, HasZombie;
    ReachableInv(s);
    var p := s.cpus[t.c].thread;
    assert ProcOk(s.ps[p], p, s.lock);
    if t.Wait? {
      DoWaitOutcome(s, t.c, p);
    } else {
      var s1 := s.(ps := s.ps[p := s.ps[p].(chan := NoChan)]);
      DoWaitOutcome(s1, t.c, p);
      forall i | 0 <= i < |s.ps| ensures s1.ps[i].parent == s.ps[i].parent && s1.ps[i].state == s.ps[i].state { }
      SameChildren(s.ps, s1.ps, p);
    }
  }

  lemma SameChildren(ps: Table, ps1: Table, p: nat)
    requires |ps| == |ps1|
    requires forall i | 0 <= i < |ps| :: ps1[i].parent == ps[i].parent && ps1[i].state == ps[i].state
    ensures (exists z | 0 <= z < |ps| :: ps[z].parent == p && ps[z].state == Zombie) <==>
            (exists z | 0 <= z < |ps1| :: ps1[z].parent == p && ps1[z].state == Zombie)
    ensures (exists i | 0 <= i < |ps| :: ps[i].parent == p) <==> (exists i | 0 <= i < |ps1| :: ps1[i].parent == p)
  {
    if z :| 0 <= z < |ps| && ps[z].parent == p && ps[z].state == Zombie {
      assert ps1[z].parent == p && ps1[z].state == Zombie;
    }
    if i :| 0 <= i < |ps| && ps[i].parent == p { assert ps1[i].parent == p; }
  }

  lemma DoWaitOutcome(s: Sys, c: nat, p: nat)
    requires p < |s.ps| && s.ps[p].state == Running
    ensures var s' := DoWait(s, c, p);
      && |s'.ps| == |s.ps|
      && (s'.reaped != s.reaped <==> exists z | 0 <= z < |s.ps| :: s.ps[z].parent == p && s.ps[z].state == Zombie)
      && (s'.ps[p].state == Sleeping <==>
            && (exists i | 0 <= i < |s.ps| :: s.ps[i].parent == p)
            && (forall i | 0 <= i < |s.ps| && s.ps[i].parent == p :: s.ps[i].state != Zombie)
            && !s.ps[p].killed)
      && (s'.ps[p].state == Sleeping ==> s'.ps[p].chan == OnProc(p) && s'.lock == c)
      && (s'.ps[p].state != Sleeping ==> s'.ps[p] == s.ps[p].(at := Free) && s'.lock == NONE)
  {
    if z :| 0 <= z < |s.ps| && s.ps[z].parent == p && s.ps[z].state == Zombie { assert ZombieChild(s.ps, p, z); }
  }

  // Whoever sleeps in wait() has a child and has not been killed.
  ghost predicate Waits(ps: Table, p: nat)
    requires p < |ps|
  {
    ps[p].state == Sleeping && ps[p].chan == OnProc(p)
  }

  ghost predicate HasChild(ps: Table, p: nat) {
    exists q | 0 <= q < |ps| :: ps[q].parent == p
  }

  ghost predicate WaitersOk(ps: Table) {
    forall p | 0 <= p < |ps| && Waits(ps, p) :: !ps[p].killed && HasChild(ps, p)
  }

  lemma ChildKept(s: Sys, t: Step, p: nat, q: nat)
    requires Inv(s) && p < |s.ps| && q < |s.ps| && Waits(s.ps, p) && s.ps[q].parent == p
    ensures |Next(s, t).ps| == |s.ps| && Next(s, t).ps[q].parent == p
  {
    hide CpusOk, FamilyOk, NoLostChild, PidsOk, DoWait, DoResume, Exited;
    assert ProcOk(s.ps[p], p, s.lock);
    if Enabled(s, t) {
      if t.Exit? {
        assert ProcOk(s.ps[s.cpus[t.c].thread], s.cpus[t.c].thread, s.lock);
        ExitOnKin(s, t, q);
      } else if t.ForkFails? || t.ForkParent? || t.ForkDone? {
        assert ForkOk(s.ps, s.cpus[t.c].thread);
        ForkStep(s, t);
      } else if t.Wait? || t.Resume? {
        WaitStep(s, t);
      }
    }
  }

  lemma DoWaitSleeps(s: Sys, c: nat, p: nat)
    requires p < |s.ps| && s.ps[p].state == Running
    ensures var s' := DoWait(s, c, p);
      |s'.ps| == |s.ps| && (Waits(s'.ps, p) ==> !s'.ps[p].killed && HasChild(s'.ps, p))
  {
    var s' := DoWait(s, c, p);
    if Waits(s'.ps, p) {
      var i :| 0 <= i < |s.ps| && s.ps[i].parent == p;
      assert s'.ps[i].parent == p;
    }
  }

  // Only wait() itself makes its process wait.
  lemma FallsAsleep(s: Sys, t: Step, p: nat)
    requires Inv(s) && p < |s.ps| && !Waits(s.ps, p) && |Next(s, t).ps| == |s.ps| && Waits(Next(s, t).ps, p)
    ensures !Next(s, t).ps[p].killed && HasChild(Next(s, t).ps, p)
  {
    hide CpusOk, TableOk, DoWait, Exited;
    assert ProcOk(s.ps[p], p, s.lock);
    if Enabled(s, t) {
      if t.Exit? {
        if s.cpus[t.c].thread != s.init { ExitedIs(s.ps, s.cpus[t.c].thread, s.init, p); }
      } else if t.Wait? || t.Resume? {
        WaitStep(s, t);
        var q := s.cpus[t.c].thread;
        DoWaitSleeps(s, t.c, q);
        DoWaitSleeps(s.(ps := s.ps[q := s.ps[q].(chan := NoChan)]), t.c, q);
      }
    }
  }

  lemma WaiterNext(s: Sys, t: Step, p: nat)
    requires Inv(s) && WaitersOk(s.ps) && p < |s.ps| && |Next(s, t).ps| == |s.ps| && Waits(Next(s, t).ps, p)
    ensures !Next(s, t).ps[p].killed && HasChild(Next(s, t).ps, p)
  {
    hide Inv, Next, Enabled;
    if Waits(s.ps, p) {
      var q :| 0 <= q < |s.ps| && s.ps[q].parent == p;
      ChildKept(s, t, p, q);
      StepOnSleeper(s, t, p);
      StepOnKin(s, t, p);
    } else {
      FallsAsleep(s, t, p);
    }
  }

  lemma {:induction false} WaitersOverRun(s: Sys, ts: seq<Step>)
    requires Init(s)
    ensures WaitersOk(Run(s, ts).ps)
  {
    if ts != [] {
      var u, t := Run(s, ts[..|ts| - 1]), ts[|ts| - 1];
      WaitersOverRun(s, ts[..|ts| - 1]);
      RunInv(s, ts[..|ts| - 1]);
      var u' := Next(u, t);
      forall p | 0 <= p < |u'.ps| && Waits(u'.ps, p) ensures !u'.ps[p].killed && HasChild(u'.ps, p) {
        StepOnKin(u, t, 0);
        WaiterNext(u, t, p);
      }
    }
  }

  // In every reachable state whoever sleeps in wait() has a child, all its
  // children are alive or being made, and it has not been killed.
  lemma WaitersHaveChildren(s: Sys, p: nat)
    requires Reachable(s) && p < |s.ps| && s.ps[p].state == Sleeping && s.ps[p].chan == OnProc(p)
    ensures !s.ps[p].killed && exists q | 0 <= q < |s.ps| :: s.ps[q].parent == p
    ensures forall q | 0 <= q < |s.ps| && s.ps[q].parent == p :: s.ps[q].state != Zombie
  {
    var s0, ts :| Init(s0) && s == Run(s0, ts);
    WaitersOverRun(s0, ts);
    ReachableInv(s);
    assert Waits(s.ps, p);
  }
}
