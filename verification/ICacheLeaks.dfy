// When iput() leaves an inode allocated that nobody can reach any more.
module ICacheLeaks {
  import opened ICache
  import opened ICacheSafety
  import opened ICacheTheorems

  // Reference h is to inode k.
  predicate RefersTo(s: Sys, h: nat, k: nat) {
    h < |s.hs| && s.hs[h].Ref? && s.hs[h].slot < |s.es| && s.es[s.hs[h].slot].inum == k
  }

  // Inode k is allocated, without links, and not in ialloc()'s hands.
  predicate Unlinked(s: Sys, k: nat) {
    && k < |s.disk| && s.disk[k].kind != 0 && s.disk[k].nlink == 0
    && forall h | 0 <= h < |s.hs| :: s.hs[h] != Marked(k)
  }

  // Nobody refers to it.
  predicate Leaked(s: Sys, k: nat) {
    Unlinked(s, k) && forall h | 0 <= h < |s.hs| :: !RefersTo(s, h, k)
  }

  // Whoever refers to it has only its reference left to drop.
  predicate Doomed(s: Sys, k: nat) {
    Unlinked(s, k) && forall h | 0 <= h < |s.hs| && RefersTo(s, h, k) :: s.hs[h].ph.PutDone?
  }

  // ---- What a step changes ----

  // The reference that a step is about.
  function Actor(t: Step): int {
    match t
    case Lookup(h, _, _) => h
    case Dup(h, _) => h
    case Mark(h, _, _) => h
    case AllocGet(h) => h
    case Lock(h) => h
    case Load(h) => h
    case Unlock(h) => h
    case AddLink(h) => h
    case DropLink(h) => h
    case AddEntry(_) => NONE
    case RemoveEntry(_) => NONE
    case PutLock(h) => h
    case PutCheck(h) => h
    case PutFree(h) => h
    case PutInvalidate(h) => h
    case PutDrop(h) => h
  }

  lemma OthersKept(s: Sys, t: Step, g: nat)
    requires g < |s.hs| && (!Enabled(s, t) || Actor(t) != g)
    ensures |Next(s, t).hs| == |s.hs| && Next(s, t).hs[g] == s.hs[g]
  {
  }

  lemma Sizes(s: Sys, t: Step)
    ensures |Next(s, t).hs| == |s.hs| && |Next(s, t).es| == |s.es| && |Next(s, t).disk| == |s.disk|
  {
  }

  // An entry in use keeps its inode.
  lemma InumKept(s: Sys, t: Step, e: nat)
    requires e < |s.es| && s.es[e].ref > 0
    ensures |Next(s, t).es| == |s.es| && Next(s, t).es[e].inum == s.es[e].inum
  {
  }

  // Allocation is ialloc()'s doing.
  lemma KindNext(s: Sys, t: Step, k: nat)
    requires Inv(s) && k < |s.disk| && s.disk[k].kind == 0
    ensures |Next(s, t).disk| == |s.disk|
    ensures Next(s, t).disk[k].kind != 0 ==> Enabled(s, t) && t.Mark? && t.inum == k
  {
    if Enabled(s, t) && (t.AddLink? || t.DropLink? || t.PutFree?) { RefFacts(s, t.h); }
  }

  // The last link is dropped by someone who has the inode locked.
  lemma NlinkNext(s: Sys, t: Step, k: nat)
    requires Inv(s) && k < |s.disk| && s.disk[k].kind != 0 && s.disk[k].nlink != 0
    ensures |Next(s, t).disk| == |s.disk|
    ensures Next(s, t).disk[k].kind != 0 && Next(s, t).disk[k].nlink == 0 ==>
              Enabled(s, t) && t.DropLink? && RefersTo(s, t.h, k) && Next(s, t).hs == s.hs
  {
    if Enabled(s, t) && (t.AddLink? || t.DropLink? || t.PutFree?) { RefFacts(s, t.h); }
  }

  // Where the acting reference goes.
  lemma ActorNext(s: Sys, t: Step, h: nat)
    requires Inv(s) && Enabled(s, t) && Actor(t) == h && h < |s.hs|
    ensures s.hs[h].Ref? && !s.hs[h].ph.PutDone? ==>
              HasRef(s, h) && Next(s, t).hs[h].Ref? && Next(s, t).hs[h].slot == s.hs[h].slot
    ensures s.hs[h].Ref? && !s.hs[h].ph.PutDone? && Next(s, t).hs[h].ph.PutDone? ==>
              t.PutCheck? || (t.PutInvalidate? && s.hs[h].ph.PutFreed?)
    ensures s.hs[h].Ref? && s.hs[h].ph.PutFreed? ==> t.PutInvalidate?
    ensures s.hs[h].Marked? ==> t.AllocGet?
    ensures Next(s, t).hs[h].Ref? && Next(s, t).hs[h].ph.PutFreed? ==> t.PutFree?
  {
    if s.hs[h].Ref? { assert HandleOk(s.hs[h], h, s.es, s.disk); }
  }

  // ialloc()'s iget() of a number whose old entry is still in use.
  lemma AllocGetShares(s: Sys, h: nat, e: nat)
    requires Inv(s) && Enabled(s, AllocGet(h)) && e < |s.es| && s.es[e].ref > 0 && s.es[e].inum == s.hs[h].inum
    ensures Next(s, AllocGet(h)).hs[h] == Ref(e, Held)
  {
    assert SlotFor(s.es, s.hs[h].inum) == e;
  }

  // ---- The window in which iput() has freed the inode ----

  // If its number has been given out again, the new owner waits for the lock.
  predicate WindowOk(s: Sys, h: nat) {
    HasRef(s, h) && s.hs[h].ph.PutFreed? && s.disk[s.es[s.hs[h].slot].inum].kind != 0 ==>
      exists g | 0 <= g < |s.hs| :: WaitsFor(s, g, s.hs[h].slot)
  }

  predicate WaitsFor(s: Sys, g: nat, e: nat) {
    g < |s.hs| && e < |s.es| && (s.hs[g] == Marked(s.es[e].inum) || s.hs[g] == Ref(e, Held))
  }

  predicate WindowsOk(s: Sys) {
    forall h | 0 <= h < |s.hs| :: WindowOk(s, h)
  }

  // Who waits keeps waiting: the lock is not free.
  lemma WaiterNext(s: Sys, t: Step, h: nat, g: nat)
    requires Inv(s) && HasRef(s, h) && s.hs[h].ph.PutFreed? && WaitsFor(s, g, s.hs[h].slot)
    ensures WaitsFor(Next(s, t), g, s.hs[h].slot)
  {
    hide Next, Do, SlotFor;
    var e := s.hs[h].slot;
    RefFacts(s, h);
    Sizes(s, t);
    InumKept(s, t, e);
    if s.hs[g].Marked? && Enabled(s, t) && Actor(t) == g {
      ActorNext(s, t, g);
      AllocGetShares(s, g, e);
    } else {
      if s.hs[g].Ref? && Actor(t) == g { HeldWaits(s, t, g); }
      OthersKept(s, t, g);
    }
  }

  lemma HeldWaits(s: Sys, t: Step, g: nat)
    requires HasRef(s, g) && s.hs[g].ph.Held? && Actor(t) == g && s.es[s.hs[g].slot].holder != NONE
    ensures !Enabled(s, t)
  {
  }

  lemma WindowNext(s: Sys, t: Step, h: nat)
    requires Inv(s) && WindowsOk(s) && h < |s.hs|
    ensures WindowOk(Next(s, t), h)
  {
    hide Next, Do;
    var s' := Next(s, t);
    Sizes(s, t);
    if HasRef(s', h) && s'.hs[h].ph.PutFreed? && s'.disk[s'.es[s'.hs[h].slot].inum].kind != 0 {
      if Enabled(s, t) && Actor(t) == h {
        ActorNext(s, t, h);
        PutFreeFrees(s, h);
      } else {
        OthersKept(s, t, h);
        assert HandleOk(s.hs[h], h, s.es, s.disk);
        RefFacts(s, h);
        var e := s.hs[h].slot;
        var k := s.es[e].inum;
        InumKept(s, t, e);
        if s.disk[k].kind == 0 {
          KindNext(s, t, k);
          MarkMarks(s, t);
          assert WaitsFor(s', t.h, e);
        } else {
          assert WindowOk(s, h);
          var g :| 0 <= g < |s.hs| && WaitsFor(s, g, e);
          WaiterNext(s, t, h, g);
        }
      }
    }
  }

  lemma PutFreeFrees(s: Sys, h: nat)
    requires Inv(s) && Enabled(s, PutFree(h))
    ensures var s' := Next(s, PutFree(h)); HasRef(s', h) && s'.disk[s'.es[s'.hs[h].slot].inum].kind == 0
  {
  }

  lemma MarkMarks(s: Sys, t: Step)
    requires Enabled(s, t) && t.Mark?
    ensures Next(s, t).hs[t.h] == Marked(t.inum)
  {
  }

  lemma {:induction false} RunWindows(s: Sys, ts: seq<Step>)
    requires Init(s)
    ensures Inv(Run(s, ts)) && WindowsOk(Run(s, ts))
  {
    RunInv(s, ts);
    if ts != [] {
      var u, t := Run(s, ts[..|ts| - 1]), ts[|ts| - 1];
      RunWindows(s, ts[..|ts| - 1]);
      forall h | 0 <= h < |Next(u, t).hs| ensures WindowOk(Next(u, t), h) {
        Sizes(u, t);
        WindowNext(u, t, h);
      }
    }
  }

  lemma ReachableWindows(s: Sys)
    requires Reachable(s)
    ensures Inv(s) && WindowsOk(s)
  {
    var s0, ts :| Init(s0) && s == Run(s0, ts);
    RunWindows(s0, ts);
  }

  // ---- Once doomed, for ever doomed ----

  // An inode whose references are all on their way out stays as it is.
  lemma DiskKept(s: Sys, t: Step, k: nat)
    requires Inv(s) && Doomed(s, k)
    ensures |Next(s, t).disk| == |s.disk| && Next(s, t).disk[k] == s.disk[k]
  {
  }

  lemma MarkedNext(s: Sys, t: Step, h: nat, k: nat)
    requires h < |s.hs| && k < |s.disk| && s.disk[k].kind != 0 && s.hs[h] != Marked(k)
    ensures |Next(s, t).hs| == |s.hs| && Next(s, t).hs[h] != Marked(k)
  {
  }

  // Where a reference to k comes from.
  lemma RefNext(s: Sys, t: Step, h: nat, k: nat)
    requires Inv(s) && RefersTo(Next(s, t), h, k)
    ensures h < |s.hs| && (RefersTo(s, h, k) || (Enabled(s, t) && Actor(t) == h))
    ensures !RefersTo(s, h, k) ==>
              || (t.Lookup? && t.inum == k) || (t.Dup? && RefersTo(s, t.of, k)) || s.hs[h] == Marked(k)
  {
    hide Next, Do, SlotFor;
    Sizes(s, t);
    if s.hs[h].Ref? {
      assert HandleOk(s.hs[h], h, s.es, s.disk);
      RefCounted(s.hs, h, s.hs[h].slot);
      InumKept(s, t, s.hs[h].slot);
    }
    if Enabled(s, t) && Actor(t) == h {
      if s.hs[h].Ref? {
        ActorNext(s, t, h);
        if s.hs[h].ph.PutDone? { ActorDone(s, t, h); }
      } else {
        NewRef(s, t, h);
      }
    } else {
      OthersKept(s, t, h);
    }
  }

  lemma NewRef(s: Sys, t: Step, h: nat)
    requires Inv(s) && Enabled(s, t) && Actor(t) == h && h < |s.hs| && !s.hs[h].Ref?
    ensures |Next(s, t).hs| == |s.hs| && |Next(s, t).es| == |s.es|
    ensures Next(s, t).hs[h].Ref? ==>
              && Next(s, t).hs[h].slot < |s.es|
              && var k := Next(s, t).es[Next(s, t).hs[h].slot].inum;
                 || (t.Lookup? && t.inum == k) || (t.Dup? && RefersTo(s, t.of, k)) || s.hs[h] == Marked(k)
  {
  }

  // A doomed inode gets no new reference.
  lemma NoNewRef(s: Sys, t: Step, h: nat, k: nat)
    requires Inv(s) && Doomed(s, k) && RefersTo(Next(s, t), h, k)
    ensures RefersTo(s, h, k) && Next(s, t).hs[h].ph.PutDone?
  {
    hide Next, Do, SlotFor;
    RefNext(s, t, h, k);
    assert LinkOk(s.disk[k], s.entries[k], s.credits[k]);
    if Enabled(s, t) && Actor(t) == h {
      ActorDone(s, t, h);
    } else {
      OthersKept(s, t, h);
    }
  }

  lemma ActorDone(s: Sys, t: Step, h: nat)
    requires Inv(s) && Enabled(s, t) && Actor(t) == h && h < |s.hs| && s.hs[h].Ref? && s.hs[h].ph.PutDone?
    ensures t.PutDrop? && Next(s, t).hs[h].Gone?
  {
  }

  lemma DoomedForever(s: Sys, t: Step, k: nat)
    requires Reachable(s) && Doomed(s, k)
    ensures Doomed(Next(s, t), k)
  {
    hide Next, Do, Reachable;
    ReachableInv(s);
    Sizes(s, t);
    DiskKept(s, t, k);
    var s' := Next(s, t);
    forall h | 0 <= h < |s'.hs| ensures s'.hs[h] != Marked(k) { MarkedNext(s, t, h, k); }
    forall h | 0 <= h < |s'.hs| && RefersTo(s', h, k) ensures s'.hs[h].ph.PutDone? { NoNewRef(s, t, h, k); }
  }

  // ---- What dooms an inode ----

  // A reference to k other than h.
  predicate Another(s: Sys, h: nat, k: nat) {
    exists g | 0 <= g < |s.hs| :: g != h && RefersTo(s, g, k)
  }

  // iput() looks at inode k, which has no links.  Every other reference is
  // past its own check; and there is one, so that the count is not 1, or the
  // inode has not been read from disk.
  predicate Dooms(s: Sys, t: Step, k: nat) {
    && Enabled(s, t) && t.PutCheck? && RefersTo(s, t.h, k)
    && s.disk[k].nlink == 0
    && (forall g | 0 <= g < |s.hs| && g != t.h && RefersTo(s, g, k) :: s.hs[g].ph.PutDone?)
    && (!s.es[s.hs[t.h].slot].valid || Another(s, t.h, k))
  }

  // All references to k meet in one entry.
  lemma SameSlot(s: Sys, g: nat, h: nat, k: nat)
    requires Inv(s) && RefersTo(s, g, k) && RefersTo(s, h, k)
    ensures s.hs[g].slot == s.hs[h].slot && HasRef(s, g) && HasRef(s, h)
  {
    assert HandleOk(s.hs[g], g, s.es, s.disk) && HandleOk(s.hs[h], h, s.es, s.disk);
    RefFacts(s, g);
    RefFacts(s, h);
  }

  // iput() refuses to free an unlinked inode exactly then.
  lemma CheckRefuses(s: Sys, h: nat, k: nat)
    requires Inv(s) && Enabled(s, PutCheck(h)) && RefersTo(s, h, k) && s.disk[k].nlink == 0
    ensures s.disk[k].kind != 0
    ensures Next(s, PutCheck(h)).hs[h] == Ref(s.hs[h].slot, PutDone) <==>
              !s.es[s.hs[h].slot].valid || Another(s, h, k)
    ensures Next(s, PutCheck(h)).disk == s.disk
  {
    RefFacts(s, h);
    var e := s.hs[h].slot;
    if Another(s, h, k) {
      var g :| 0 <= g < |s.hs| && g != h && RefersTo(s, g, k);
      SameSlot(s, g, h, k);
      if g < h { OnlyRef(s.hs, g, h, e); } else { OnlyRef(s.hs, h, g, e); }
    } else {
      forall g | 0 <= g < |s.hs| && g != h ensures !(s.hs[g].Ref? && s.hs[g].slot == e) {
        assert !RefersTo(s, g, k);
      }
      OneRef(s.hs, h, e);
    }
  }

  lemma DoomingDooms(s: Sys, t: Step, k: nat)
    requires Inv(s) && Dooms(s, t, k)
    ensures Doomed(Next(s, t), k)
  {
    hide Next, Do;
    CheckRefuses(s, t.h, k);
    RefFacts(s, t.h);
    Sizes(s, t);
    var s' := Next(s, t);
    forall h | 0 <= h < |s'.hs| ensures s'.hs[h] != Marked(k) {
      assert s.hs[h] != Marked(k);
      MarkedNext(s, t, h, k);
    }
    forall h | 0 <= h < |s'.hs| && RefersTo(s', h, k) ensures s'.hs[h].ph.PutDone? {
      RefNext(s, t, h, k);
      if h != t.h { OthersKept(s, t, h); }
    }
  }

  // Someone who is not on the way out stays so, but for that check and for
  // the end of the window.
  lemma StaysIn(s: Sys, t: Step, h: nat, k: nat)
    requires Inv(s) && WindowsOk(s) && RefersTo(s, h, k) && !s.hs[h].ph.PutDone? && !Dooms(s, t, k)
    ensures !Doomed(Next(s, t), k)
  {
    hide Next, Do, SlotFor;
    var s' := Next(s, t);
    assert HandleOk(s.hs[h], h, s.es, s.disk);
    RefFacts(s, h);
    Sizes(s, t);
    InumKept(s, t, s.hs[h].slot);
    if Enabled(s, t) && Actor(t) == h {
      ActorNext(s, t, h);
      assert RefersTo(s', h, k);
      if s'.hs[h].ph.PutDone? {
        if t.PutCheck? { CheckEnds(s, h, k); } else { WindowEnds(s, h, k); }
      }
    } else {
      OthersKept(s, t, h);
      assert RefersTo(s', h, k);
    }
  }

  lemma CheckEnds(s: Sys, h: nat, k: nat)
    requires Inv(s) && Enabled(s, PutCheck(h)) && RefersTo(s, h, k) && !Dooms(s, PutCheck(h), k)
    requires Next(s, PutCheck(h)).hs[h] == Ref(s.hs[h].slot, PutDone)
    ensures !Doomed(Next(s, PutCheck(h)), k)
  {
    hide Next, Do;
    var s', t := Next(s, PutCheck(h)), PutCheck(h);
    RefFacts(s, h);
    Sizes(s, t);
    CheckKeepsDisk(s, h);
    if s.disk[k].nlink == 0 {
      CheckRefuses(s, h, k);
      var g :| 0 <= g < |s.hs| && g != h && RefersTo(s, g, k) && !s.hs[g].ph.PutDone?;
      SameSlot(s, g, h, k);
      OthersKept(s, t, g);
      InumKept(s, t, s.hs[h].slot);
      assert RefersTo(s', g, k);
    }
  }

  lemma CheckKeepsDisk(s: Sys, h: nat)
    ensures Next(s, PutCheck(h)).disk == s.disk
  {
  }

  // The end of the window: the number is free, or its new owner is there.
  lemma WindowEnds(s: Sys, h: nat, k: nat)
    requires Inv(s) && WindowsOk(s) && Enabled(s, PutInvalidate(h)) && RefersTo(s, h, k)
    ensures !Doomed(Next(s, PutInvalidate(h)), k)
  {
    hide Next, Do, SlotFor;
    var s', t := Next(s, PutInvalidate(h)), PutInvalidate(h);
    var e := s.hs[h].slot;
    RefFacts(s, h);
    Sizes(s, t);
    InumKept(s, t, e);
    if s.disk[k].kind == 0 {
      KindNext(s, t, k);
    } else {
      assert WindowOk(s, h);
      var g :| 0 <= g < |s.hs| && WaitsFor(s, g, e);
      OthersKept(s, t, g);
      assert s'.hs[g] == Marked(k) || RefersTo(s', g, k);
    }
  }

  lemma NotDoomedNext(s: Sys, t: Step, k: nat)
    requires Inv(s) && WindowsOk(s) && k < |s.disk| && !Doomed(s, k) && !Dooms(s, t, k)
    ensures !Doomed(Next(s, t), k)
  {
    hide Next, Do, SlotFor, WindowsOk;
    var s' := Next(s, t);
    Sizes(s, t);
    if s.disk[k].kind == 0 {
      KindNext(s, t, k);
      if s'.disk[k].kind != 0 { MarkMarks(s, t); }
    } else if s.disk[k].nlink != 0 {
      NlinkNext(s, t, k);
      if s'.disk[k].kind != 0 && s'.disk[k].nlink == 0 { StaysIn(s, t, t.h, k); }
    } else if h :| 0 <= h < |s.hs| && s.hs[h] == Marked(k) {
      MarkNotDoomed(s, t, h, k);
    } else {
      var h :| 0 <= h < |s.hs| && RefersTo(s, h, k) && !s.hs[h].ph.PutDone?;
      StaysIn(s, t, h, k);
    }
  }

  lemma MarkNotDoomed(s: Sys, t: Step, h: nat, k: nat)
    requires Inv(s) && h < |s.hs| && s.hs[h] == Marked(k)
    ensures !Doomed(Next(s, t), k)
  {
    hide Do;
    var s' := Next(s, t);
    if Enabled(s, t) && Actor(t) == h {
      ActorNext(s, t, h);
      AllocGetTakes(s, h);
    } else {
      OthersKept(s, t, h);
    }
  }

  // ialloc()'s iget() makes a reference to the inode, or panics.
  lemma AllocGetTakes(s: Sys, h: nat)
    requires Inv(s) && Enabled(s, AllocGet(h))
    ensures var s' := Next(s, AllocGet(h)); var k := s.hs[h].inum;
      |s'.hs| == |s.hs| && (s'.hs[h] == Marked(k) || (RefersTo(s', h, k) && s'.hs[h].ph.Held?))
  {
  }

  // An inode becomes doomed exactly when an iput() looks at it in that
  // situation.
  lemma DoomedIff(s: Sys, t: Step, k: nat)
    requires Reachable(s) && k < |s.disk| && !Doomed(s, k)
    ensures Doomed(Next(s, t), k) <==> Dooms(s, t, k)
  {
    hide Next, Do, Reachable;
    ReachableWindows(s);
    if Dooms(s, t, k) { DoomingDooms(s, t, k); } else { NotDoomedNext(s, t, k); }
  }

  // And it is leaked exactly when the last reference to a doomed inode is
  // dropped.
  lemma LeaksIff(s: Sys, t: Step, k: nat)
    requires Reachable(s) && k < |s.disk| && !Leaked(s, k)
    ensures Leaked(Next(s, t), k) <==>
              Doomed(s, k) && Enabled(s, t) && t.PutDrop? && RefersTo(s, t.h, k) && !Another(s, t.h, k)
  {
    hide Do, Reachable, WindowsOk;
    ReachableWindows(s);
    var s' := Next(s, t);
    Sizes(s, t);
    if Doomed(s, k) {
      DoomedForever(s, t, k);
      LastDrop(s, t, k);
    } else if Dooms(s, t, k) {
      CheckRefuses(s, t.h, k);
      RefFacts(s, t.h);
      InumKept(s, t, s.hs[t.h].slot);
      assert RefersTo(s', t.h, k);
    } else {
      NotDoomedNext(s, t, k);
    }
  }

  lemma LastDrop(s: Sys, t: Step, k: nat)
    requires Inv(s) && Doomed(s, k) && !Leaked(s, k)
    ensures (forall h | 0 <= h < |Next(s, t).hs| :: !RefersTo(Next(s, t), h, k)) <==>
              Enabled(s, t) && t.PutDrop? && RefersTo(s, t.h, k) && !Another(s, t.h, k)
  {
    hide Next, Do, SlotFor;
    var s' := Next(s, t);
    Sizes(s, t);
    if Enabled(s, t) && t.PutDrop? && RefersTo(s, t.h, k) && !Another(s, t.h, k) {
      forall h | 0 <= h < |s'.hs| ensures !RefersTo(s', h, k) {
        if RefersTo(s', h, k) {
          NoNewRef(s, t, h, k);
          ActorDone(s, t, t.h);
        }
      }
    } else {
      var h :| 0 <= h < |s.hs| && RefersTo(s, h, k);
      var g := h;
      if Enabled(s, t) && t.PutDrop? && t.h == h {
        g :| 0 <= g < |s.hs| && g != h && RefersTo(s, g, k);
      }
      RefFacts(s, g);
      if Enabled(s, t) && Actor(t) == g { ActorDone(s, t, g); }
      OthersKept(s, t, g);
      InumKept(s, t, s.hs[g].slot);
      assert RefersTo(s', g, k);
    }
  }

  // Some iput() of the run doomed k.
  predicate DoomedOnTheWay(s: Sys, ts: seq<Step>, k: nat) {
    ts != [] &&
    (DoomedOnTheWay(s, ts[..|ts| - 1], k) || Dooms(Run(s, ts[..|ts| - 1]), ts[|ts| - 1], k))
  }

  // Over whole runs: an inode is doomed at the end exactly if it was at the
  // start or some iput() doomed it on the way.
  lemma {:induction false} DoomedOverRun(s: Sys, ts: seq<Step>, k: nat)
    requires Init(s) && k < |s.disk|
    ensures |Run(s, ts).disk| == |s.disk|
    ensures Doomed(Run(s, ts), k) <==> Doomed(s, k) || DoomedOnTheWay(s, ts, k)
  {
    hide Doomed, Dooms, Next, Reachable;
    if ts != [] {
      var u, t := Run(s, ts[..|ts| - 1]), ts[|ts| - 1];
      DoomedOverRun(s, ts[..|ts| - 1], k);
      Sizes(u, t);
      RunReachable(s, ts[..|ts| - 1]);
      if Doomed(u, k) {
        DoomedForever(u, t, k);
      } else {
        DoomedIff(u, t, k);
      }
    }
  }

  lemma RunReachable(s: Sys, ts: seq<Step>)
    requires Init(s)
    ensures Reachable(Run(s, ts))
  {
  }
}
