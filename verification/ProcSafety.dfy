// What every run of proc.c keeps.
module ProcSafety {
  import opened ProcTable
  import opened ProcRuns

  lemma InitInv(s: Sys)
    requires Init(s)
    ensures Inv(s)
  {
  }

  // ---- One entry changes its state, not its family ----

  ghost predicate SameKin(x: Proc, y: Proc) {
    && x.parent == y.parent && x.pid == y.pid
    && Live(x.state) && Live(y.state)
    && x.fork == y.fork
  }

  lemma KinKept(ps: Table, init: nat, nextpid: nat, reaped: seq<nat>, p: nat, y: Proc)
    requires TableOk(ps, init, nextpid, reaped) && p < |ps| && SameKin(ps[p], y)
    requires y.state.Sleeping? && y.chan == OnProc(p) ==>
               (ps[p].state.Sleeping? && ps[p].chan == OnProc(p)) || !HasZombie(ps, p)
    ensures TableOk(ps[p := y], init, nextpid, reaped)
  {
    var ps' := ps[p := y];
    assert FamilyOk(ps', init) by {
      forall q | 0 <= q < |ps'| ensures KinOk(ps', init, q) { assert KinOk(ps, init, q); }
    }
    assert ForksOk(ps') by {
      forall q | 0 <= q < |ps'| ensures ForkOk(ps', q) { assert ForkOk(ps, q); }
    }
    assert NoLostChild(ps') by {
      forall q, z | 0 <= q < |ps'| && 0 <= z < |ps'| && ps'[z].parent == q && ps'[z].state.Zombie?
        ensures !(ps'[q].state.Sleeping? && ps'[q].chan == OnProc(q))
      {
        assert ZombieChild(ps, q, z);
      }
    }
  }

  // Everyone but p is as well with the new lock holder as with the old one.
  lemma OthersOk(s: Sys, lock: int, p: nat)
    requires CpusOk(s) && ProcsOk(s.ps, s.lock) && p < |s.ps|
    requires lock == s.lock || s.lock == NONE || s.lock == s.ps[p].on
    ensures forall q | 0 <= q < |s.ps| && q != p :: ProcOk(s.ps[q], q, lock)
  {
    forall q | 0 <= q < |s.ps| && q != p ensures ProcOk(s.ps[q], q, lock) {
      assert ProcOk(s.ps[q], q, s.lock);
    }
  }

  // Entry p becomes y, on the same CPU or none as before.
  lemma OneEntryInv(s: Sys, s': Sys, p: nat, y: Proc)
    requires Inv(s) && p < |s.ps| && SameKin(s.ps[p], y)
    requires s' == s.(ps := s.ps[p := y], lock := s'.lock, panicked := s'.panicked)
    requires s'.lock == s.lock || s.lock == NONE || s.lock == s.ps[p].on
    requires s'.lock == NONE || 0 <= s'.lock < |s.cpus|
    requires y.on == s.ps[p].on && ProcOk(y, p, s'.lock)
    requires y.state.Sleeping? && y.chan == OnProc(p) ==>
               (s.ps[p].state.Sleeping? && s.ps[p].chan == OnProc(p)) || !HasZombie(s.ps, p)
    ensures Inv(s')
  {
    OthersOk(s, s'.lock, p);
    KinKept(s.ps, s.init, s.nextpid, s.reaped, p, y);
  }

  lemma SchedLockInv(s: Sys, t: Step)
    requires Inv(s) && Enabled(s, t) && (t.SchedAcquire? || t.SchedRelease?)
    ensures Inv(Do(s, t))
  {
    var s' := Do(s, t);
    forall p | 0 <= p < |s.ps| ensures ProcOk(s.ps[p], p, s'.lock) { assert ProcOk(s.ps[p], p, s.lock); }
  }

  lemma SchedSwitchInv(s: Sys, t: Step)
    requires Inv(s) && Enabled(s, t) && t.SchedSwitch?
    ensures Inv(Do(s, t))
  {
    hide TableOk;
    var s' := Do(s, t);
    assert ProcOk(s.ps[t.p], t.p, s.lock);
    KinKept(s.ps, s.init, s.nextpid, s.reaped, t.p, s'.ps[t.p]);
  }

  lemma SwtchInv(s: Sys, t: Step)
    requires Inv(s) && Enabled(s, t) && t.Swtch?
    ensures Inv(Do(s, t)) && !Do(s, t).panicked
  {
    hide TableOk;
    var p := s.cpus[t.c].thread;
    assert ProcOk(s.ps[p], p, s.lock);
    var y := Do(s, t).ps[p];
    if s.ps[p].state.Zombie? {
      ZombieParked(s.ps, s.init, s.nextpid, s.reaped, p, y);
    } else {
      KinKept(s.ps, s.init, s.nextpid, s.reaped, p, y);
    }
  }

  // A zombie leaves its CPU.
  lemma ZombieParked(ps: Table, init: nat, nextpid: nat, reaped: seq<nat>, p: nat, y: Proc)
    requires TableOk(ps, init, nextpid, reaped) && p < |ps| && ps[p].state.Zombie?
    requires ps[p].at.ToSched? && y == ps[p].(at := y.at, on := NONE) && y.at.Parked?
    ensures TableOk(ps[p := y], init, nextpid, reaped)
  {
    var ps' := ps[p := y];
    assert FamilyOk(ps', init) by {
      forall q | 0 <= q < |ps'| ensures KinOk(ps', init, q) { assert KinOk(ps, init, q); }
    }
    assert ForksOk(ps') by {
      forall q | 0 <= q < |ps'| ensures ForkOk(ps', q) { assert ForkOk(ps, q); }
    }
  }

  lemma YieldSleepInv(s: Sys, t: Step)
    requires Inv(s) && Enabled(s, t) && (t.Yield? || t.Sleep?)
    ensures Inv(Do(s, t))
  {
    var p := s.cpus[t.c].thread;
    assert ProcOk(s.ps[p], p, s.lock);
    OneEntryInv(s, Do(s, t), p, Do(s, t).ps[p]);
  }

  lemma KillInv(s: Sys, t: Step)
    requires Inv(s) && Enabled(s, t) && t.Kill?
    ensures Inv(Do(s, t))
  {
    var p := t.i;
    var y := KilledProc(s.ps[p]);
    assert ProcOk(s.ps[p], p, s.lock);
    if Live(s.ps[p].state) {
      OneEntryInv(s, Do(s, t), p, y);
    } else {
      KilledTable(s.ps, s.init, s.nextpid, s.reaped, p);
    }
  }

  lemma KilledTable(ps: Table, init: nat, nextpid: nat, reaped: seq<nat>, p: nat)
    requires TableOk(ps, init, nextpid, reaped) && p < |ps| && !ps[p].state.Sleeping?
    ensures TableOk(ps[p := KilledProc(ps[p])], init, nextpid, reaped)
  {
    var ps' := ps[p := KilledProc(ps[p])];
    assert FamilyOk(ps', init) by {
      forall q | 0 <= q < |ps'| ensures KinOk(ps', init, q) { assert KinOk(ps, init, q); }
    }
    assert ForksOk(ps') by {
      forall q | 0 <= q < |ps'| ensures ForkOk(ps', q) { assert ForkOk(ps, q); }
    }
  }

  // ---- wakeup ----

  // Some sleepers have become runnable, and nothing else.
  ghost predicate Eased(ps: Table, ps': Table) {
    |ps'| == |ps| && forall i | 0 <= i < |ps| :: EasedOne(ps[i], ps'[i])
  }

  ghost predicate EasedOne(x: Proc, y: Proc) {
    y == x || (x.state.Sleeping? && y == x.(state := Runnable))
  }

  lemma EasedFamily(ps: Table, ps': Table, init: nat)
    requires FamilyOk(ps, init) && ForksOk(ps) && Eased(ps, ps')
    ensures FamilyOk(ps', init) && ForksOk(ps')
  {
    forall q | 0 <= q < |ps'| ensures KinOk(ps', init, q) && ForkOk(ps', q) {
      assert KinOk(ps, init, q) && ForkOk(ps, q);
    }
  }

  lemma EasedTable(ps: Table, ps': Table, init: nat, nextpid: nat, reaped: seq<nat>)
    requires TableOk(ps, init, nextpid, reaped) && Eased(ps, ps')
    ensures TableOk(ps', init, nextpid, reaped)
  {
    hide FamilyOk, ForksOk;
    EasedFamily(ps, ps', init);
  }

  lemma WakeProcs(ps: Table, lock: int, chan: Chan)
    requires ProcsOk(ps, lock)
    ensures ProcsOk(Wake(ps, chan), lock)
  {
    forall p | 0 <= p < |ps| ensures ProcOk(Wake(ps, chan)[p], p, lock) { assert ProcOk(ps[p], p, lock); }
  }

  lemma WakeupInv(s: Sys, t: Step)
    requires Inv(s) && Enabled(s, t) && t.Wakeup?
    ensures Inv(Do(s, t))
  {
    EasedTable(s.ps, Wake(s.ps, Other(t.k)), s.init, s.nextpid, s.reaped);
    WakeProcs(s.ps, s.lock, Other(t.k));
  }

  // ---- exit ----

  // What exit() does to another entry.
  lemma ExitedEntry(ps: Table, p: nat, init: nat, i: nat)
    requires p < |ps| && i < |ps| && i != p
    ensures var x, y := ps[i], Exited(ps, p, init)[i];
      && y == x.(state := y.state, parent := if x.parent == p then init else x.parent)
      && (y.state == x.state || (x.state.Sleeping? && y.state.Runnable?))
      && (i == ps[p].parent || (i == init && HasZombie(ps, p)) ==>
            !(y.state.Sleeping? && y.chan == OnProc(i)))
  {
    var w := if ps[p].parent >= 0 then Wake(ps, OnProc(ps[p].parent)) else ps;
    if HasZombie(ps, p) {
      var z :| ZombieChild(ps, p, z);
      assert ZombieChild(w, p, z);
    }
  }

  lemma ExitedFamily(ps: Table, p: nat, init: nat)
    requires p < |ps| && p != init && FamilyOk(ps, init) && ps[p].fork.NoFork? && Live(ps[p].state)
    ensures FamilyOk(Exited(ps, p, init), init)
  {
    hide Exited;
    var r := Exited(ps, p, init);
    ExitedSelf(ps, p, init);
    forall i | 0 <= i < |r| && i != p
      ensures KinOk(r, init, i)
    {
      assert KinOk(ps, init, i) && KinOk(ps, init, init);
      ExitedEntry(ps, p, init, i);
      ExitedEntry(ps, p, init, init);
      if 0 <= ps[i].parent < |ps| && ps[i].parent != p { ExitedEntry(ps, p, init, ps[i].parent); }
    }
    assert KinOk(r, init, p) by {
      assert KinOk(ps, init, p);
      ExitedEntry(ps, p, init, ps[p].parent);
    }
  }

  lemma ExitedSelf(ps: Table, p: nat, init: nat)
    requires p < |ps|
    ensures Exited(ps, p, init)[p] ==
              ps[p].(state := Zombie, at := ToSched(Never), parent := if ps[p].parent == p then init else ps[p].parent)
  {
  }

  lemma ExitedForks(ps: Table, p: nat, init: nat)
    requires p < |ps| && ForksOk(ps) && ps[p].fork.NoFork? && Live(ps[p].state)
    ensures ForksOk(Exited(ps, p, init))
  {
    hide Exited;
    var r := Exited(ps, p, init);
    ExitedSelf(ps, p, init);
    forall i | 0 <= i < |r| && i != p
      ensures ForkOk(r, i) && r[i].fork == ps[i].fork
    {
      assert ForkOk(ps, i);
      ExitedEntry(ps, p, init, i);
      if !ps[i].fork.NoFork? && ps[i].fork.np < |ps| && ps[i].fork.np != p {
        ExitedEntry(ps, p, init, ps[i].fork.np);
      }
    }
  }

  lemma ExitedNoLost(ps: Table, p: nat, init: nat)
    requires p < |ps| && p != init && FamilyOk(ps, init) && NoLostChild(ps) && Live(ps[p].state)
    ensures NoLostChild(Exited(ps, p, init))
  {
    hide Exited;
    var r := Exited(ps, p, init);
    assert KinOk(ps, init, p);
    ExitedSelf(ps, p, init);
    forall q, z | 0 <= q < |r| && 0 <= z < |r| && r[z].parent == q && r[z].state.Zombie?
      ensures !(r[q].state.Sleeping? && r[q].chan == OnProc(q))
    {
      if q != p {
        ExitedEntry(ps, p, init, q);
        if z != p {
          ExitedEntry(ps, p, init, z);
          if ps[z].parent == p { assert ZombieChild(ps, p, z); }
        }
      }
    }
  }

  lemma ExitedPids(ps: Table, p: nat, init: nat, nextpid: nat, reaped: seq<nat>)
    requires p < |ps| && PidsOk(ps, nextpid, reaped) && Live(ps[p].state)
    ensures PidsOk(Exited(ps, p, init), nextpid, reaped)
  {
    hide Exited;
    ExitedSelf(ps, p, init);
    forall i | 0 <= i < |ps| && i != p
      ensures Exited(ps, p, init)[i].pid == ps[i].pid
      ensures Exited(ps, p, init)[i].state.Unused? == ps[i].state.Unused?
    {
      ExitedEntry(ps, p, init, i);
    }
  }

  lemma ExitedProcs(ps: Table, p: nat, init: nat, c: nat)
    requires p < |ps| && ProcsOk(ps, NONE) && ps[p].on == c && ps[p].fork.NoFork?
    ensures ProcsOk(Exited(ps, p, init), c)
    ensures forall i | 0 <= i < |ps| :: Exited(ps, p, init)[i].on == ps[i].on
  {
    hide Exited;
    ExitedSelf(ps, p, init);
    forall i | 0 <= i < |ps|
      ensures ProcOk(Exited(ps, p, init)[i], i, c) && Exited(ps, p, init)[i].on == ps[i].on
    {
      assert ProcOk(ps[i], i, NONE);
      if i != p { ExitedEntry(ps, p, init, i); }
    }
  }

  lemma ExitInv(s: Sys, t: Step)
    requires Inv(s) && Enabled(s, t) && t.Exit?
    ensures Inv(Do(s, t))
  {
    hide Exited, FamilyOk, ForksOk, NoLostChild, PidsOk, ProcsOk;
    var p := s.cpus[t.c].thread;
    if p != s.init {
      RunningFree(s, p);
      ExitedFamily(s.ps, p, s.init);
      ExitedForks(s.ps, p, s.init);
      ExitedNoLost(s.ps, p, s.init);
      ExitedPids(s.ps, p, s.init, s.nextpid, s.reaped);
      ExitedProcs(s.ps, p, s.init, t.c);
    }
  }

  lemma RunningFree(s: Sys, p: nat)
    requires ProcsOk(s.ps, s.lock) && p < |s.ps| && s.ps[p].at.Free?
    ensures s.ps[p].state.Running?
  {
    assert ProcOk(s.ps[p], p, s.lock);
  }

  // ---- wait ----

  // The first point where a zombie's kernel stack may be freed is when its
  // CPU has left it, and that is when its parent can see it.
  lemma ZombieIsOff(s: Sys, p: nat, z: nat)
    requires CpusOk(s) && ProcsOk(s.ps, s.lock) && p < |s.ps| && z < |s.ps|
    requires s.ps[z].state.Zombie? && s.ps[p].state.Running?
    requires s.lock == NONE || s.lock == s.ps[p].on
    ensures s.ps[z].on == NONE && s.ps[z].at.Parked? && s.ps[z].fork.NoFork?
  {
    assert ProcOk(s.ps[z], z, s.lock) && ProcOk(s.ps[p], p, s.lock);
  }

  lemma ReapFamily(ps: Table, init: nat, p: nat, z: nat, y: Proc)
    requires FamilyOk(ps, init) && ForksOk(ps) && p < |ps| && ZombieChild(ps, p, z) && p != z
    requires SameKin(ps[p], y) && !y.state.Sleeping?
    ensures FamilyOk(ps[z := Released(ps[z])][p := y], init)
    ensures ForksOk(ps[z := Released(ps[z])][p := y])
  {
    var r := ps[z := Released(ps[z])][p := y];
    forall q | 0 <= q < |r| ensures KinOk(r, init, q) && ForkOk(r, q) {
      assert KinOk(ps, init, q) && ForkOk(ps, q);
    }
  }

  lemma ReapPids(ps: Table, nextpid: nat, reaped: seq<nat>, p: nat, z: nat, y: Proc)
    requires PidsOk(ps, nextpid, reaped) && p < |ps| && ZombieChild(ps, p, z) && p != z
    requires SameKin(ps[p], y)
    ensures PidsOk(ps[z := Released(ps[z])][p := y], nextpid, reaped + [ps[z].pid])
  {
  }

  lemma ReapTable(ps: Table, init: nat, nextpid: nat, reaped: seq<nat>, p: nat, z: nat, y: Proc)
    requires TableOk(ps, init, nextpid, reaped) && p < |ps| && ZombieChild(ps, p, z) && p != z
    requires SameKin(ps[p], y) && !y.state.Sleeping?
    ensures TableOk(ps[z := Released(ps[z])][p := y], init, nextpid, reaped + [ps[z].pid])
  {
    hide FamilyOk, ForksOk, PidsOk;
    ReapFamily(ps, init, p, z, y);
    ReapPids(ps, nextpid, reaped, p, z, y);
  }

  lemma ReapInv(s: Sys, p: nat, z: nat, y: Proc, s': Sys)
    requires Inv(s) && p < |s.ps| && ZombieChild(s.ps, p, z)
    requires s.lock == NONE || s.lock == s.ps[p].on
    requires s.ps[p].state.Running? && SameKin(s.ps[p], y) && y.state.Running?
    requires y.at.Free? && y.on == s.ps[p].on
    requires s' == s.(ps := s.ps[z := Released(s.ps[z])][p := y], lock := NONE,
                      reaped := s.reaped + [s.ps[z].pid])
    ensures Inv(s')
  {
    hide TableOk;
    ZombieIsOff(s, p, z);
    ReapTable(s.ps, s.init, s.nextpid, s.reaped, p, z, y);
    OthersOk(s, NONE, p);
  }

  // wait()'s scan, from a state where p holds the lock or nobody does.
  lemma DoWaitInv(s: Sys, c: nat, p: nat)
    requires Inv(s) && p < |s.ps| && s.ps[p].on == c && c < |s.cpus|
    requires s.ps[p].state.Running? && s.ps[p].fork.NoFork?
    requires s.lock == NONE || s.lock == c
    ensures Inv(DoWait(s, c, p))
  {
    hide CpusOk, ProcsOk, TableOk;
    var s' := DoWait(s, c, p);
    var y := s'.ps[p];
    if HasZombie(s.ps, p) {
      ReapInv(s, p, FirstZombie(s.ps, p), s.ps[p].(at := Free), s');
    } else {
      OneEntryInv(s, s', p, y);
    }
  }

  lemma WaitInv(s: Sys, t: Step)
    requires Inv(s) && Enabled(s, t) && t.Wait?
    ensures Inv(Do(s, t))
  {
    var p := s.cpus[t.c].thread;
    RunningFree(s, p);
    DoWaitInv(s, t.c, p);
  }

  lemma ResumeInv(s: Sys, t: Step)
    requires Inv(s) && Enabled(s, t) && t.Resume?
    ensures Inv(Do(s, t)) && !Do(s, t).panicked
  {
    var p := s.cpus[t.c].thread;
    assert ProcOk(s.ps[p], p, s.lock);
    var x := s.ps[p];
    if x.at.r.WaitGoesOn? {
      var s1 := s.(ps := s.ps[p := x.(chan := NoChan)]);
      OneEntryInv(s, s1, p, x.(chan := NoChan));
      DoWaitInv(s1, t.c, p);
    } else {
      OneEntryInv(s, Do(s, t), p, Do(s, t).ps[p]);
    }
  }

  // ---- fork ----

  // allocproc(): entry np becomes an embryo that p is forking.
  function Allocated(ps: Table, p: nat, np: nat, pid: nat): (r: Table)
    requires p < |ps| && np < |ps| && p != np
    ensures |r| == |ps| && r[p] == ps[p].(fork := Forking(np)) && r[np] == ps[np].(state := Embryo, pid := pid)
    ensures forall q | 0 <= q < |ps| && q != p && q != np :: r[q] == ps[q]
  {
    SetFork(ps[np := ps[np].(state := Embryo, pid := pid)], p, Forking(np))
  }

  lemma AllocFamily(ps: Table, init: nat, p: nat, np: nat, pid: nat)
    requires FamilyOk(ps, init) && ForksOk(ps) && p < |ps| && np < |ps|
    requires Live(ps[p].state) && ps[p].fork.NoFork? && ps[np].state.Unused? && ps[np].fork.NoFork?
    ensures FamilyOk(Allocated(ps, p, np, pid), init) && ForksOk(Allocated(ps, p, np, pid))
  {
    hide Allocated;
    var r := Allocated(ps, p, np, pid);
    assert KinOk(ps, init, np);
    forall q | 0 <= q < |r|
      ensures KinOk(r, init, q) && ForkOk(r, q) && (q != p ==> r[q].fork != Forking(np))
    {
      assert KinOk(ps, init, q) && ForkOk(ps, q);
    }
  }

  lemma AllocPids(ps: Table, nextpid: nat, reaped: seq<nat>, p: nat, np: nat)
    requires PidsOk(ps, nextpid, reaped) && p < |ps| && np < |ps| && p != np && ps[np].state.Unused?
    ensures PidsOk(Allocated(ps, p, np, nextpid), nextpid + 1, reaped)
  {
    hide Allocated;
    var r := Allocated(ps, p, np, nextpid);
    forall q | 0 <= q < |r| && q != np ensures r[q].state == ps[q].state && r[q].pid == ps[q].pid { }
  }

  lemma AllocTable(ps: Table, init: nat, nextpid: nat, reaped: seq<nat>, p: nat, np: nat)
    requires TableOk(ps, init, nextpid, reaped) && p < |ps| && np < |ps|
    requires Live(ps[p].state) && ps[p].fork.NoFork? && ps[np].state.Unused?
    requires ps[np].fork.NoFork?
    ensures TableOk(Allocated(ps, p, np, nextpid), init, nextpid + 1, reaped)
  {
    hide FamilyOk, ForksOk, PidsOk, Allocated;
    AllocFamily(ps, init, p, np, nextpid);
    AllocPids(ps, nextpid, reaped, p, np);
  }

  lemma ForkFailsTable(ps: Table, init: nat, nextpid: nat, reaped: seq<nat>, p: nat, np: nat)
    requires TableOk(ps, init, nextpid, reaped) && p < |ps| && ps[p].fork == Forking(np)
    requires Live(ps[p].state) && np < |ps| && ps[np].fork.NoFork?
    ensures TableOk(SetFork(ps[np := ps[np].(state := Unused)], p, NoFork), init, nextpid, reaped)
  {
    var r := SetFork(ps[np := ps[np].(state := Unused)], p, NoFork);
    assert ForkOk(ps, p);
    forall q | 0 <= q < |r| ensures KinOk(r, init, q) && ForkOk(r, q) {
      assert KinOk(ps, init, q) && ForkOk(ps, q);
    }
  }

  lemma ForkParentTable(ps: Table, init: nat, nextpid: nat, reaped: seq<nat>, p: nat, np: nat)
    requires TableOk(ps, init, nextpid, reaped) && p < |ps| && ps[p].fork == Forking(np)
    requires Live(ps[p].state) && np < |ps| && ps[np].fork.NoFork?
    ensures TableOk(SetFork(ps[np := ps[np].(parent := p)], p, ForkReady(np)), init, nextpid, reaped)
  {
    var r := SetFork(ps[np := ps[np].(parent := p)], p, ForkReady(np));
    assert ForkOk(ps, p);
    forall q | 0 <= q < |r| ensures KinOk(r, init, q) && ForkOk(r, q) {
      assert KinOk(ps, init, q) && ForkOk(ps, q);
    }
  }

  lemma ForkDoneTable(ps: Table, init: nat, nextpid: nat, reaped: seq<nat>, p: nat, np: nat)
    requires TableOk(ps, init, nextpid, reaped) && p < |ps| && ps[p].fork == ForkReady(np)
    requires Live(ps[p].state) && np < |ps| && ps[np].fork.NoFork?
    ensures TableOk(SetFork(ps[np := ps[np].(state := Runnable, at := Parked(FirstRun))], p, NoFork),
                    init, nextpid, reaped)
  {
    var r := SetFork(ps[np := ps[np].(state := Runnable, at := Parked(FirstRun))], p, NoFork);
    assert ForkOk(ps, p);
    forall q | 0 <= q < |r| ensures KinOk(r, init, q) && ForkOk(r, q) {
      assert KinOk(ps, init, q) && ForkOk(ps, q);
    }
  }

  lemma AllocInv(s: Sys, t: Step)
    requires Inv(s) && Enabled(s, t) && t.AllocProc?
    ensures Inv(Do(s, t))
  {
    hide TableOk;
    var p := s.cpus[t.c].thread;
    assert ProcOk(s.ps[p], p, s.lock) && ProcOk(s.ps[t.np], t.np, s.lock);
    AllocTable(s.ps, s.init, s.nextpid, s.reaped, p, t.np);
  }

  lemma ForkFailsInv(s: Sys, t: Step)
    requires Inv(s) && Enabled(s, t) && t.ForkFails?
    ensures Inv(Do(s, t))
  {
    hide TableOk;
    var p, np := s.cpus[t.c].thread, ForkingOf(s, t.c);
    assert ProcOk(s.ps[p], p, s.lock);
    ForkTarget(s, p, np);
    ForkFailsTable(s.ps, s.init, s.nextpid, s.reaped, p, np);
  }

  lemma ForkParentInv(s: Sys, t: Step)
    requires Inv(s) && Enabled(s, t) && t.ForkParent?
    ensures Inv(Do(s, t))
  {
    hide TableOk;
    var p, np := s.cpus[t.c].thread, ForkingOf(s, t.c);
    assert ProcOk(s.ps[p], p, s.lock);
    ForkTarget(s, p, np);
    ForkParentTable(s.ps, s.init, s.nextpid, s.reaped, p, np);
  }

  lemma ForkDoneInv(s: Sys, t: Step)
    requires Inv(s) && Enabled(s, t) && t.ForkDone?
    ensures Inv(Do(s, t))
  {
    hide TableOk;
    var p, np := s.cpus[t.c].thread, ReadyOf(s, t.c);
    assert ProcOk(s.ps[p], p, s.lock);
    ForkTarget(s, p, np);
    ForkDoneTable(s.ps, s.init, s.nextpid, s.reaped, p, np);
  }

  lemma ForkTarget(s: Sys, p: nat, np: nat)
    requires ProcsOk(s.ps, s.lock) && TableOk(s.ps, s.init, s.nextpid, s.reaped) && p < |s.ps|
    requires s.ps[p].fork == Forking(np) || s.ps[p].fork == ForkReady(np)
    ensures np < |s.ps| && s.ps[np].state.Embryo? && s.ps[np].at.Parked? && s.ps[np].fork.NoFork? && np != p
    ensures s.ps[np].on == NONE
  {
    assert ForkOk(s.ps, p) && ProcOk(s.ps[p], p, s.lock);
    assert ProcOk(s.ps[np], np, s.lock);
  }

  // ---- Whole runs ----

  lemma NextInv(s: Sys, t: Step)
    requires Inv(s)
    ensures Inv(Next(s, t))
    ensures !s.panicked && Next(s, t).panicked ==> t.Exit? && t.c < |s.cpus| && s.cpus[t.c].thread == s.init
  {
    if Enabled(s, t) {
      match t
      case SchedAcquire(_) => SchedLockInv(s, t);
      case SchedSwitch(_, _) => SchedSwitchInv(s, t);
      case SchedRelease(_) => SchedLockInv(s, t);
      case Swtch(_) => SwtchInv(s, t);
      case Resume(_) => ResumeInv(s, t);
      case Yield(_) => YieldSleepInv(s, t);
      case Sleep(_, _) => YieldSleepInv(s, t);
      case Wakeup(_) => WakeupInv(s, t);
      case Exit(_) => ExitInv(s, t);
      case Wait(_) => WaitInv(s, t);
      case AllocProc(_, _) => AllocInv(s, t);
      case ForkFails(_) => ForkFailsInv(s, t);
      case ForkParent(_) => ForkParentInv(s, t);
      case ForkDone(_) => ForkDoneInv(s, t);
      case Kill(_) => KillInv(s, t);
    }
  }
}
