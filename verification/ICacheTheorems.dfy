// What the inode cache promises in every reachable state.
module ICacheTheorems {
  import opened ICache
  import opened ICacheSafety

  lemma {:induction false} RunInv(s: Sys, ts: seq<Step>)
    requires Init(s)
    ensures Inv(Run(s, ts))
  {
    if ts == [] {
      InitInv(s);
    } else {
      RunInv(s, ts[..|ts| - 1]);
      NextInv(Run(s, ts[..|ts| - 1]), ts[|ts| - 1]);
    }
  }

  ghost predicate Reachable(s: Sys) {
    exists s0, ts :: Init(s0) && s == Run(s0, ts)
  }

  lemma ReachableInv(s: Sys)
    requires Reachable(s)
    ensures Inv(s)
  {
    var s0, ts :| Init(s0) && s == Run(s0, ts);
    RunInv(s0, ts);
  }

  lemma ReachableInit(s: Sys)
    requires Init(s)
    ensures Reachable(s)
  {
    assert s == Run(s, []);
  }

  lemma ReachableNext(s: Sys, t: Step)
    requires Reachable(s)
    ensures Reachable(Next(s, t))
  {
    var s0, ts :| Init(s0) && s == Run(s0, ts);
    assert (ts + [t])[..|ts|] == ts;
    assert Next(s, t) == Run(s0, ts + [t]);
  }

  // At most one referenced entry for each inode, so that all references to
  // an inode meet in one entry and one lock.
  lemma OneEntryPerInode(s: Sys, g: nat, h: nat)
    requires Reachable(s) && HasRef(s, g) && HasRef(s, h)
    ensures s.es[s.hs[g].slot].inum == s.es[s.hs[h].slot].inum <==> s.hs[g].slot == s.hs[h].slot
    ensures s.es[s.hs[h].slot].ref >= 1
  {
    ReachableInv(s);
    RefFacts(s, g);
    RefFacts(s, h);
  }

  // From the check in iput() until the inode is free on disk, no other
  // reference to it exists, no directory names it and ialloc() has not
  // given it out.
  lemma FreesOnlyLastReference(s: Sys, h: nat)
    requires Reachable(s) && In(s, h, PutFreeing)
    ensures forall g: nat | HasRef(s, g) && g != h :: s.es[s.hs[g].slot].inum != s.es[s.hs[h].slot].inum
    ensures forall g | 0 <= g < |s.hs| :: s.hs[g] != Marked(s.es[s.hs[h].slot].inum)
    ensures Sized(s) && s.entries[s.es[s.hs[h].slot].inum] == 0
  {
    ReachableInv(s);
    FreeingFacts(s, h);
    forall g: nat | HasRef(s, g) && g != h ensures s.es[s.hs[g].slot].inum != s.es[s.hs[h].slot].inum {
      FreeingAlone(s, h, g);
    }
  }

  // Freeing is the only way an allocated inode becomes free, and it is free
  // of links then.
  lemma OnlyIputFrees(s: Sys, t: Step, k: nat)
    requires Reachable(s) && k < |s.disk| && s.disk[k].kind != 0
    requires |Next(s, t).disk| == |s.disk| && Next(s, t).disk[k].kind == 0
    ensures t.PutFree? && In(s, t.h, PutFreeing) && s.es[s.hs[t.h].slot].inum == k
    ensures s.disk[k].nlink == 0
  {
    ReachableInv(s);
    if In(s, t.h, Holding) || In(s, t.h, PutFreeing) { RefFacts(s, t.h); }
  }

  // Whoever has the inode locked sees in the cache what is on disk, and an
  // allocated inode: ilock()'s and iunlock()'s panics are unreachable.
  lemma LockedIsCurrent(s: Sys, h: nat)
    requires Reachable(s) && In(s, h, Holding)
    ensures var x := s.es[s.hs[h].slot];
      x.valid && x.holder == h && s.disk[x.inum] == Dinode(x.kind, x.nlink) && x.kind != 0
  {
    ReachableInv(s);
    RefFacts(s, h);
  }

  // A reference got is to its inode, in the entry that has it or in a free
  // one, and iget() panics exactly if there is neither.
  lemma GetOutcome(s: Sys, h: nat, inum: nat, via: nat)
    requires Reachable(s) && Enabled(s, Lookup(h, inum, via))
    ensures var s' := Next(s, Lookup(h, inum, via));
      && (s'.panic == NoEntries <==> forall e | 0 <= e < |s.es| :: s.es[e].ref > 0 && s.es[e].inum != inum)
      && (s'.panic == NoPanic ==>
            && |s'.hs| == |s.hs| && In(s', h, Held) && s'.es[s'.hs[h].slot].inum == inum
            && s'.es[s'.hs[h].slot].ref == s.es[s'.hs[h].slot].ref + 1
            && (s.es[s'.hs[h].slot].ref == 0 ==> !s'.es[s'.hs[h].slot].valid))
  {
  }

  // Link counts go up and down by one, in the cache and on disk at once, and
  // so do the entries that directories have.
  lemma LinkSteps(s: Sys, t: Step, k: nat)
    requires Reachable(s) && Enabled(s, t) && k < |s.disk|
    requires t.AddLink? || t.DropLink? || t.AddEntry? || t.RemoveEntry?
    ensures var s' := Next(s, t);
      && |s'.disk| == |s.disk| && |s'.entries| == |s.disk|
      && s'.disk[k].kind == s.disk[k].kind
      && s'.disk[k].nlink == s.disk[k].nlink
           + (if t.AddLink? && s.es[s.hs[t.h].slot].inum == k then 1 else 0)
           - (if t.DropLink? && s.es[s.hs[t.h].slot].inum == k then 1 else 0)
      && s'.entries[k] == s.entries[k] + (if t == AddEntry(k) then 1 else 0) - (if t == RemoveEntry(k) then 1 else 0)
  {
    ReachableInv(s);
    if t.AddLink? || t.DropLink? { RefFacts(s, t.h); }
  }

  lemma NoLockPanics(s: Sys)
    requires Reachable(s)
    ensures s.panic != NoType && s.panic != BadLock
  {
    ReachableInv(s);
  }

  // iput() decides to free exactly when the inode has no links and no one
  // else has a reference, not even one about to be dropped.
  lemma PutFreesIff(s: Sys, h: nat)
    requires Reachable(s) && Enabled(s, PutCheck(h))
    ensures var e := s.hs[h].slot;
      In(Next(s, PutCheck(h)), h, PutFreeing) <==>
        && s.es[e].valid && s.es[e].nlink == 0
        && forall g | 0 <= g < |s.hs| && g != h :: !(s.hs[g].Ref? && s.hs[g].slot == e)
  {
    ReachableInv(s);
    RefFacts(s, h);
    var e := s.hs[h].slot;
    if g :| 0 <= g < |s.hs| && g != h && s.hs[g].Ref? && s.hs[g].slot == e {
      if g < h { OnlyRef(s.hs, g, h, e); } else { OnlyRef(s.hs, h, g, e); }
    } else {
      OneRef(s.hs, h, e);
    }
  }

  lemma {:induction false} OneRef(hs: seq<Handle>, h: nat, e: nat)
    requires h < |hs| && hs[h].Ref? && hs[h].slot == e
    requires forall g | 0 <= g < |hs| && g != h :: !(hs[g].Ref? && hs[g].slot == e)
    ensures Refs(hs, e) == 1
  {
    RefsUpdate(hs, h, Gone, e);
    NoneTo(hs[h := Gone], e);
  }

  lemma {:induction false} NoneTo(hs: seq<Handle>, e: nat)
    requires forall g | 0 <= g < |hs| :: !(hs[g].Ref? && hs[g].slot == e)
    ensures Refs(hs, e) == 0
  {
    if hs != [] { NoneTo(hs[1..], e); }
  }
}
