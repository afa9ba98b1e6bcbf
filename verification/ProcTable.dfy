// The process table of proc.c and the operations on it that run under
// ptable.lock, as loops over the table and as functions of its contents.
module ProcTable {

  const NONE: int := -1

  datatype PState = Unused | Embryo | Sleeping | Runnable | Running | Zombie

  // What a process sleeps on: its own entry (in wait), or something else.
  datatype Chan = NoChan | OnProc(p: nat) | Other(k: nat)

  // Where a kernel thread goes on after sched() returns.
  datatype Resume = YieldEnds | SleepEnds | WaitGoesOn | FirstRun | Never

  // Where a kernel thread is.  Resumed and ToSched threads hold ptable.lock.
  datatype At =
    | Free
    | ToSched(r: Resume)
    | Parked(r: Resume)
    | Resumed(r: Resume)

  // How far the process is in fork(): a clock tick may take it off its CPU
  // at any point of it.
  datatype Fork =
    | NoFork
    | Forking(np: nat)      // allocproc() gave it np; no parent set yet
    | ForkReady(np: nat)    // np is ready but for its state

  // `on` is the CPU that is on this process's kernel stack, or NONE.
  datatype Proc = Proc(
    state: PState, pid: nat, parent: int, chan: Chan, killed: bool, at: At, on: int, fork: Fork)

  type Table = seq<Proc>

  predicate Live(st: PState) {
    st.Sleeping? || st.Runnable? || st.Running?
  }

  // wakeup1()
  function Woken(x: Proc, chan: Chan): Proc {
    if x.state.Sleeping? && x.chan == chan then x.(state := Runnable) else x
  }

  function Wake(ps: Table, chan: Chan): (r: Table)
    ensures |r| == |ps| && forall i | 0 <= i < |ps| :: r[i] == Woken(ps[i], chan)
  {
    seq(|ps|, i requires 0 <= i < |ps| => Woken(ps[i], chan))
  }

  // Hand p's children to init.
  function Adopted(x: Proc, p: int, init: nat): Proc {
    if x.parent == p then x.(parent := init) else x
  }

  function Adopt(ps: Table, p: nat, init: nat): (r: Table)
    ensures |r| == |ps| && forall i | 0 <= i < |ps| :: r[i] == Adopted(ps[i], p, init)
  {
    seq(|ps|, i requires 0 <= i < |ps| => Adopted(ps[i], p, init))
  }

  ghost predicate ZombieChild(ps: Table, p: int, z: nat) {
    z < |ps| && ps[z].parent == p && ps[z].state.Zombie?
  }

  ghost predicate HasZombie(ps: Table, p: int) {
    exists z :: ZombieChild(ps, p, z)
  }

  // exit() passing p's children to init, and waking it for a zombie.
  ghost function Passed(ps: Table, p: nat, init: nat): (r: Table)
    ensures |r| == |ps|
  {
    var a := Adopt(ps, p, init);
    if HasZombie(ps, p) then Wake(a, OnProc(init)) else a
  }

  // exit() under the lock, up to sched().
  ghost function Exited(ps: Table, p: nat, init: nat): (r: Table)
    requires p < |ps|
    ensures |r| == |ps|
  {
    var w := if ps[p].parent >= 0 then Wake(ps, OnProc(ps[p].parent)) else ps;
    var b := Passed(w, p, init);
    b[p := b[p].(state := Zombie, at := ToSched(Never))]
  }

  // What exit() makes of entry i: children of p are init's, whoever waits for
  // p, or as init for a zombie child of p, is runnable, and p is a zombie.
  ghost predicate ExitLeaves(ps: Table, p: nat, init: nat, i: nat, y: Proc)
    requires p < |ps| && i < |ps|
  {
    var x := ps[i];
    var parent := if x.parent == p then init else x.parent;
    var woken := x.state == Sleeping &&
      ((ps[p].parent >= 0 && x.chan == OnProc(ps[p].parent)) ||
       (x.chan == OnProc(init) && exists z | 0 <= z < |ps| :: ps[z].parent == p && ps[z].state == Zombie));
    if i == p then y == x.(parent := parent, state := Zombie, at := ToSched(Never))
    else y == x.(parent := parent, state := if woken then Runnable else x.state)
  }

  lemma ExitedIs(ps: Table, p: nat, init: nat, i: nat)
    requires p < |ps| && i < |ps|
    ensures ExitLeaves(ps, p, init, i, Exited(ps, p, init)[i])
  {
    var w := if ps[p].parent >= 0 then Wake(ps, OnProc(ps[p].parent)) else ps;
    assert HasZombie(w, p) <==> exists z | 0 <= z < |ps| :: ps[z].parent == p && ps[z].state == Zombie by {
      if HasZombie(w, p) {
        var z: nat :| ZombieChild(w, p, z);
        assert ps[z].parent == p && ps[z].state == Zombie;
      }
      if z :| 0 <= z < |ps| && ps[z].parent == p && ps[z].state == Zombie { assert ZombieChild(w, p, z); }
    }
  }

  // wait() releasing the entry of a zombie.
  function Released(x: Proc): Proc {
    x.(state := Unused, pid := 0, parent := NONE, killed := false)
  }

  datatype WaitResult = Reaped(z: nat, pid: nat) | NoChildren | WasKilled | MustSleep

  // What wait()'s scan finds.
  ghost predicate WaitFinds(ps: Table, p: nat, r: WaitResult)
    requires p < |ps|
  {
    match r
    case Reaped(z, pid) =>
      && ZombieChild(ps, p, z) && pid == ps[z].pid
      && forall i | 0 <= i < z :: !ZombieChild(ps, p, i)
    case NoChildren => forall i | 0 <= i < |ps| :: ps[i].parent != p
    case WasKilled =>
      !HasZombie(ps, p) && ps[p].killed && exists i | 0 <= i < |ps| :: ps[i].parent == p
    case MustSleep =>
      !HasZombie(ps, p) && !ps[p].killed && exists i | 0 <= i < |ps| :: ps[i].parent == p
  }

  class Ptable {
    var proc: array<Proc>

    constructor (n: nat)
      ensures proc.Length == n && fresh(proc)
      ensures forall i | 0 <= i < n :: proc[i].state.Unused? && proc[i].parent == NONE
    {
      proc := new Proc[n](_ => Proc(Unused, 0, NONE, NoChan, false, Parked(FirstRun), NONE, NoFork));
    }

    method Wakeup1(chan: Chan)
      modifies proc
      ensures proc[..] == Wake(old(proc[..]), chan)
      ensures forall i | 0 <= i < proc.Length ::
                var x := old(proc[..])[i];
                proc[i] == if x.state == Sleeping && x.chan == chan then x.(state := Runnable) else x
    {
      var i := 0;
      while i < proc.Length
        invariant 0 <= i <= proc.Length
        invariant forall j | 0 <= j < i :: proc[j] == Woken(old(proc[j]), chan)
        invariant forall j | i <= j < proc.Length :: proc[j] == old(proc[j])
      {
        if proc[i].state.Sleeping? && proc[i].chan == chan {
          proc[i] := proc[i].(state := Runnable);
        }
        i := i + 1;
      }
    }

    // allocproc(): the first unused entry, which becomes an embryo.
    method AllocEntry(pid: nat) returns (np: int)
      modifies proc
      ensures np == NONE ==> proc[..] == old(proc[..]) && forall i | 0 <= i < proc.Length :: !proc[i].state.Unused?
      ensures np != NONE ==>
                && 0 <= np < proc.Length && old(proc[np]).state.Unused?
                && (forall i | 0 <= i < np :: !old(proc[i]).state.Unused?)
                && proc[..] == old(proc[..])[np := old(proc[np]).(state := Embryo, pid := pid)]
    {
      var i := 0;
      while i < proc.Length
        invariant 0 <= i <= proc.Length
        invariant forall j | 0 <= j < i :: !proc[j].state.Unused?
        invariant proc[..] == old(proc[..])
      {
        if proc[i].state.Unused? {
          proc[i] := proc[i].(state := Embryo, pid := pid);
          return i;
        }
        i := i + 1;
      }
      return NONE;
    }

    // exit()'s loop: pass the children to init, waking it for zombies.
    method PassChildren(p: nat, init: nat)
      modifies proc
      ensures proc[..] == Passed(old(proc[..]), p, init)
    {
      ghost var ps := proc[..];
      ghost var seen := false;
      var i := 0;
      while i < proc.Length
        invariant 0 <= i <= proc.Length
        invariant seen <==> exists z :: 0 <= z < i && ZombieChild(ps, p, z)
        invariant forall j | 0 <= j < proc.Length ::
                    proc[j] == AfterAdopt(if j < i then Adopted(ps[j], p, init) else ps[j], seen, init)
      {
        assert proc[i].parent == ps[i].parent && (proc[i].state.Zombie? <==> ps[i].state.Zombie?);
        if proc[i].parent == p {
          proc[i] := proc[i].(parent := init);
          if proc[i].state.Zombie? {
            assert ZombieChild(ps, p, i);
            Wakeup1(OnProc(init));
            seen := true;
          }
        }
        i := i + 1;
      }
    }

    // exit(): wake the parent, pass the children to init (waking it for
    // zombies), become a zombie.
    method Exit(p: nat, init: nat)
      requires p < proc.Length && init < proc.Length && p != init
      modifies proc
      ensures proc[..] == Exited(old(proc[..]), p, init)
      ensures forall i | 0 <= i < proc.Length :: ExitLeaves(old(proc[..]), p, init, i, proc[i])
    {
      forall i | 0 <= i < proc.Length
        ensures ExitLeaves(proc[..], p, init, i, Exited(proc[..], p, init)[i])
      {
        ExitedIs(proc[..], p, init, i);
      }
      if proc[p].parent >= 0 { Wakeup1(OnProc(proc[p].parent)); }
      PassChildren(p, init);
      proc[p] := proc[p].(state := Zombie, at := ToSched(Never));
    }

    // wait()'s scan for an exited child.
    method WaitScan(p: nat) returns (r: WaitResult)
      requires p < proc.Length
      modifies proc
      ensures WaitFinds(old(proc[..]), p, r)
      ensures proc[..] == if r.Reaped? then old(proc[..])[r.z := Released(old(proc[..])[r.z])]
                          else old(proc[..])
      ensures r.Reaped? ==>
                && r.z < proc.Length && r.pid == old(proc[..])[r.z].pid
                && old(proc[..])[r.z].parent == p && old(proc[..])[r.z].state == Zombie
                && proc[r.z].state == Unused && proc[r.z].parent == NONE && proc[r.z].pid == 0 && !proc[r.z].killed
    {
      ghost var ps := proc[..];
      var havekids := false;
      var i := 0;
      while i < proc.Length
        invariant 0 <= i <= proc.Length && proc[..] == ps
        invariant forall j | 0 <= j < i :: !ZombieChild(ps, p, j)
        invariant havekids <==> exists j | 0 <= j < i :: ps[j].parent == p
      {
        if proc[i].parent == p {
          havekids := true;
          if proc[i].state.Zombie? {
            var pid := proc[i].pid;
            proc[i] := Released(proc[i]);
            return Reaped(i, pid);
          }
        }
        i := i + 1;
      }
      if !havekids { return NoChildren; }
      if proc[p].killed { return WasKilled; }
      return MustSleep;
    }

    // kill(): mark the first entry with that pid, and wake it.
    method Kill(pid: nat) returns (i: int)
      modifies proc
      ensures i == NONE ==> proc[..] == old(proc[..]) && forall j | 0 <= j < proc.Length :: proc[j].pid != pid
      ensures i != NONE ==>
                && 0 <= i < proc.Length && old(proc[i]).pid == pid
                && (forall j | 0 <= j < i :: old(proc[j]).pid != pid)
                && proc[..] == old(proc[..])[i := KilledProc(old(proc[i]))]
                && proc[i].killed
                && proc[i].state == (if old(proc[i]).state == Sleeping then Runnable else old(proc[i]).state)
                && proc[i] == old(proc[i]).(killed := proc[i].killed, state := proc[i].state)
    {
      i := 0;
      while i < proc.Length
        invariant 0 <= i <= proc.Length && proc[..] == old(proc[..])
        invariant forall j | 0 <= j < i :: proc[j].pid != pid
      {
        if proc[i].pid == pid {
          proc[i] := proc[i].(killed := true);
          if proc[i].state.Sleeping? { proc[i] := proc[i].(state := Runnable); }
          return;
        }
        i := i + 1;
      }
      i := NONE;
    }
  }

  function AfterAdopt(x: Proc, seen: bool, init: nat): Proc {
    if seen then Woken(x, OnProc(init)) else x
  }

  function KilledProc(x: Proc): Proc {
    x.(killed := true, state := if x.state.Sleeping? then Runnable else x.state)
  }
}
