// Three runs of the inode cache with one entry, two references and inode 1.
module ICacheRuns {
  import opened ICache
  import opened ICacheTheorems
  import opened ICacheLeaks

  function Small(x: Entry, g: Handle, h: Handle, d: Dinode, entries: nat, credits: nat): Sys {
    Sys([x], [g, h], [Dinode(0, 0), d], [0, entries], [0, credits], NoPanic)
  }

  lemma Goes(s: Sys, t: Step, s': Sys)
    requires Reachable(s) && Next(s, t) == s'
    ensures Reachable(s')
  {
    ReachableNext(s, t);
  }

  // ---- create() ----

  // ialloc() gives out inode 1.
  lemma Allocated()
    ensures Reachable(Small(Entry(1, 1, false, NONE, 0, 0), Ref(0, Held), Gone, Dinode(2, 0), 0, 0))
  {
    hide Reachable, Run;
    var s0 := Small(Entry(0, 0, false, NONE, 0, 0), Gone, Gone, Dinode(0, 0), 0, 0);
    ReachableInit(s0);
    var s1 := Small(Entry(0, 0, false, NONE, 0, 0), Marked(1), Gone, Dinode(2, 0), 0, 0);
    Goes(s0, Mark(0, 1, 2), s1);
    var s2 := Small(Entry(1, 1, false, NONE, 0, 0), Ref(0, Held), Gone, Dinode(2, 0), 0, 0);
    Goes(s1, AllocGet(0), s2);
  }

  lemma Loaded()
    ensures Reachable(Small(Entry(1, 1, true, 0, 2, 0), Ref(0, Holding), Gone, Dinode(2, 0), 0, 0))
  {
    hide Reachable, Run;
    Allocated();
    var s0 := Small(Entry(1, 1, false, NONE, 0, 0), Ref(0, Held), Gone, Dinode(2, 0), 0, 0);
    var s1 := Small(Entry(1, 1, false, 0, 0, 0), Ref(0, Loading), Gone, Dinode(2, 0), 0, 0);
    Goes(s0, Lock(0), s1);
    var s2 := Small(Entry(1, 1, true, 0, 2, 0), Ref(0, Holding), Gone, Dinode(2, 0), 0, 0);
    Goes(s1, Load(0), s2);
  }

  // create() sets the link count, enters the name and unlocks; the file stays open.
  lemma Created()
    ensures Reachable(Small(Entry(1, 1, true, NONE, 2, 1), Ref(0, Held), Gone, Dinode(2, 1), 1, 0))
  {
    hide Reachable, Run;
    Loaded();
    var s0 := Small(Entry(1, 1, true, 0, 2, 0), Ref(0, Holding), Gone, Dinode(2, 0), 0, 0);
    var s1 := Small(Entry(1, 1, true, 0, 2, 1), Ref(0, Holding), Gone, Dinode(2, 1), 0, 1);
    Goes(s0, AddLink(0), s1);
    var s2 := Small(Entry(1, 1, true, 0, 2, 1), Ref(0, Holding), Gone, Dinode(2, 1), 1, 0);
    Goes(s1, AddEntry(1), s2);
    var s3 := Small(Entry(1, 1, true, NONE, 2, 1), Ref(0, Held), Gone, Dinode(2, 1), 1, 0);
    Goes(s2, Unlock(0), s3);
  }

  // ---- Two overlapping iput()s ----

  // unlink() finds the name.
  lemma Found()
    ensures Reachable(Small(Entry(1, 2, true, 1, 2, 1), Ref(0, Held), Ref(0, Loading), Dinode(2, 1), 1, 0))
  {
    hide Reachable, Run;
    Created();
    var s0 := Small(Entry(1, 1, true, NONE, 2, 1), Ref(0, Held), Gone, Dinode(2, 1), 1, 0);
    var s1 := Small(Entry(1, 2, true, NONE, 2, 1), Ref(0, Held), Ref(0, Held), Dinode(2, 1), 1, 0);
    Goes(s0, Lookup(1, 1, 0), s1);
    var s2 := Small(Entry(1, 2, true, 1, 2, 1), Ref(0, Held), Ref(0, Loading), Dinode(2, 1), 1, 0);
    Goes(s1, Lock(1), s2);
  }

  lemma Removed()
    ensures Reachable(Small(Entry(1, 2, true, 1, 2, 1), Ref(0, Held), Ref(0, Holding), Dinode(2, 1), 0, 1))
  {
    hide Reachable, Run;
    Found();
    var s0 := Small(Entry(1, 2, true, 1, 2, 1), Ref(0, Held), Ref(0, Loading), Dinode(2, 1), 1, 0);
    var s1 := Small(Entry(1, 2, true, 1, 2, 1), Ref(0, Held), Ref(0, Holding), Dinode(2, 1), 1, 0);
    Goes(s0, Load(1), s1);
    var s2 := Small(Entry(1, 2, true, 1, 2, 1), Ref(0, Held), Ref(0, Holding), Dinode(2, 1), 0, 1);
    Goes(s1, RemoveEntry(1), s2);
  }

  // It clears the entry and drops the link.
  lemma LinkDropped()
    ensures Reachable(Small(Entry(1, 2, true, NONE, 2, 0), Ref(0, Held), Ref(0, Held), Dinode(2, 0), 0, 0))
  {
    hide Reachable, Run;
    Removed();
    var s0 := Small(Entry(1, 2, true, 1, 2, 1), Ref(0, Held), Ref(0, Holding), Dinode(2, 1), 0, 1);
    var s1 := Small(Entry(1, 2, true, 1, 2, 0), Ref(0, Held), Ref(0, Holding), Dinode(2, 0), 0, 0);
    Goes(s0, DropLink(1), s1);
    var s2 := Small(Entry(1, 2, true, NONE, 2, 0), Ref(0, Held), Ref(0, Held), Dinode(2, 0), 0, 0);
    Goes(s1, Unlock(1), s2);
  }

  // unlink()'s iput() sees two references.
  lemma FirstPutRefused()
    ensures Reachable(Small(Entry(1, 2, true, NONE, 2, 0), Ref(0, Held), Ref(0, PutDone), Dinode(2, 0), 0, 0))
  {
    hide Reachable, Run;
    LinkDropped();
    var s0 := Small(Entry(1, 2, true, NONE, 2, 0), Ref(0, Held), Ref(0, Held), Dinode(2, 0), 0, 0);
    var s1 := Small(Entry(1, 2, true, 1, 2, 0), Ref(0, Held), Ref(0, PutLocked), Dinode(2, 0), 0, 0);
    Goes(s0, PutLock(1), s1);
    var s2 := Small(Entry(1, 2, true, NONE, 2, 0), Ref(0, Held), Ref(0, PutDone), Dinode(2, 0), 0, 0);
    Goes(s1, PutCheck(1), s2);
  }

  // So does the one of close(), before the first has dropped its own.
  lemma SecondPutRefused()
    ensures Reachable(Small(Entry(1, 2, true, NONE, 2, 0), Ref(0, PutDone), Ref(0, PutDone), Dinode(2, 0), 0, 0))
  {
    hide Reachable, Run;
    FirstPutRefused();
    var s0 := Small(Entry(1, 2, true, NONE, 2, 0), Ref(0, Held), Ref(0, PutDone), Dinode(2, 0), 0, 0);
    var s1 := Small(Entry(1, 2, true, 0, 2, 0), Ref(0, PutLocked), Ref(0, PutDone), Dinode(2, 0), 0, 0);
    Goes(s0, PutLock(0), s1);
    var s2 := Small(Entry(1, 2, true, NONE, 2, 0), Ref(0, PutDone), Ref(0, PutDone), Dinode(2, 0), 0, 0);
    Goes(s1, PutCheck(0), s2);
  }

  // The inode of an open file that is unlinked and closed at the same time
  // stays allocated, for ever.
  lemma OverlappingPutsLeak()
    ensures Reachable(Small(Entry(1, 0, true, NONE, 2, 0), Gone, Gone, Dinode(2, 0), 0, 0))
    ensures Leaked(Small(Entry(1, 0, true, NONE, 2, 0), Gone, Gone, Dinode(2, 0), 0, 0), 1)
  {
    hide Reachable, Run;
    SecondPutRefused();
    var s0 := Small(Entry(1, 2, true, NONE, 2, 0), Ref(0, PutDone), Ref(0, PutDone), Dinode(2, 0), 0, 0);
    var s1 := Small(Entry(1, 1, true, NONE, 2, 0), Gone, Ref(0, PutDone), Dinode(2, 0), 0, 0);
    Goes(s0, PutDrop(0), s1);
    var s2 := Small(Entry(1, 0, true, NONE, 2, 0), Gone, Gone, Dinode(2, 0), 0, 0);
    Goes(s1, PutDrop(1), s2);
  }

  // The second check is the one that dooms it.
  lemma SecondPutDooms()
    ensures Dooms(Small(Entry(1, 2, true, 0, 2, 0), Ref(0, PutLocked), Ref(0, PutDone), Dinode(2, 0), 0, 0),
                  PutCheck(0), 1)
  {
    var s := Small(Entry(1, 2, true, 0, 2, 0), Ref(0, PutLocked), Ref(0, PutDone), Dinode(2, 0), 0, 0);
    assert RefersTo(s, 1, 1);
    assert Another(s, 0, 1);
  }

  // ---- A reference that never locked the inode ----

  lemma UnloadedPutRefused()
    ensures Reachable(Small(Entry(1, 1, false, NONE, 0, 0), Ref(0, PutDone), Gone, Dinode(2, 0), 0, 0))
  {
    hide Reachable, Run;
    Allocated();
    var s0 := Small(Entry(1, 1, false, NONE, 0, 0), Ref(0, Held), Gone, Dinode(2, 0), 0, 0);
    var s1 := Small(Entry(1, 1, false, 0, 0, 0), Ref(0, PutLocked), Gone, Dinode(2, 0), 0, 0);
    Goes(s0, PutLock(0), s1);
    Goes(s1, PutCheck(0), Small(Entry(1, 1, false, NONE, 0, 0), Ref(0, PutDone), Gone, Dinode(2, 0), 0, 0));
  }

  // iput() right after ialloc() frees nothing: without overlap, but the inode
  // was never read from disk.
  lemma UnloadedPutLeaks()
    ensures Reachable(Small(Entry(1, 0, false, NONE, 0, 0), Gone, Gone, Dinode(2, 0), 0, 0))
    ensures Leaked(Small(Entry(1, 0, false, NONE, 0, 0), Gone, Gone, Dinode(2, 0), 0, 0), 1)
  {
    hide Reachable, Run;
    UnloadedPutRefused();
    var s0 := Small(Entry(1, 1, false, NONE, 0, 0), Ref(0, PutDone), Gone, Dinode(2, 0), 0, 0);
    Goes(s0, PutDrop(0), Small(Entry(1, 0, false, NONE, 0, 0), Gone, Gone, Dinode(2, 0), 0, 0));
  }

  // ---- ialloc() during iput() ----

  // The file is closed; its name stays.
  lemma Closing()
    ensures Reachable(Small(Entry(1, 1, true, NONE, 2, 1), Ref(0, PutDone), Gone, Dinode(2, 1), 1, 0))
  {
    hide Reachable, Run;
    Created();
    var s0 := Small(Entry(1, 1, true, NONE, 2, 1), Ref(0, Held), Gone, Dinode(2, 1), 1, 0);
    var s1 := Small(Entry(1, 1, true, 0, 2, 1), Ref(0, PutLocked), Gone, Dinode(2, 1), 1, 0);
    Goes(s0, PutLock(0), s1);
    Goes(s1, PutCheck(0), Small(Entry(1, 1, true, NONE, 2, 1), Ref(0, PutDone), Gone, Dinode(2, 1), 1, 0));
  }

  lemma Closed()
    ensures Reachable(Small(Entry(1, 0, true, NONE, 2, 1), Gone, Gone, Dinode(2, 1), 1, 0))
  {
    hide Reachable, Run;
    Closing();
    var s0 := Small(Entry(1, 1, true, NONE, 2, 1), Ref(0, PutDone), Gone, Dinode(2, 1), 1, 0);
    Goes(s0, PutDrop(0), Small(Entry(1, 0, true, NONE, 2, 1), Gone, Gone, Dinode(2, 1), 1, 0));
  }

  lemma FoundAgain()
    ensures Reachable(Small(Entry(1, 1, false, 1, 2, 1), Gone, Ref(0, Loading), Dinode(2, 1), 1, 0))
  {
    hide Reachable, Run;
    Closed();
    var s0 := Small(Entry(1, 0, true, NONE, 2, 1), Gone, Gone, Dinode(2, 1), 1, 0);
    var s1 := Small(Entry(1, 1, false, NONE, 2, 1), Gone, Ref(0, Held), Dinode(2, 1), 1, 0);
    Goes(s0, Lookup(1, 1, 0), s1);
    var s2 := Small(Entry(1, 1, false, 1, 2, 1), Gone, Ref(0, Loading), Dinode(2, 1), 1, 0);
    Goes(s1, Lock(1), s2);
  }

  lemma LoadedAgain()
    ensures Reachable(Small(Entry(1, 1, true, 1, 2, 1), Gone, Ref(0, Holding), Dinode(2, 1), 0, 1))
  {
    hide Reachable, Run;
    FoundAgain();
    var s0 := Small(Entry(1, 1, false, 1, 2, 1), Gone, Ref(0, Loading), Dinode(2, 1), 1, 0);
    var s1 := Small(Entry(1, 1, true, 1, 2, 1), Gone, Ref(0, Holding), Dinode(2, 1), 1, 0);
    Goes(s0, Load(1), s1);
    var s2 := Small(Entry(1, 1, true, 1, 2, 1), Gone, Ref(0, Holding), Dinode(2, 1), 0, 1);
    Goes(s1, RemoveEntry(1), s2);
  }

  lemma UnlinkedAgain()
    ensures Reachable(Small(Entry(1, 1, true, NONE, 2, 0), Gone, Ref(0, Held), Dinode(2, 0), 0, 0))
  {
    hide Reachable, Run;
    LoadedAgain();
    var s0 := Small(Entry(1, 1, true, 1, 2, 1), Gone, Ref(0, Holding), Dinode(2, 1), 0, 1);
    var s1 := Small(Entry(1, 1, true, 1, 2, 0), Gone, Ref(0, Holding), Dinode(2, 0), 0, 0);
    Goes(s0, DropLink(1), s1);
    var s2 := Small(Entry(1, 1, true, NONE, 2, 0), Gone, Ref(0, Held), Dinode(2, 0), 0, 0);
    Goes(s1, Unlock(1), s2);
  }

  lemma PutSeesNoOther()
    ensures Reachable(Small(Entry(1, 1, true, 1, 2, 0), Gone, Ref(0, PutFreeing), Dinode(2, 0), 0, 0))
  {
    hide Reachable, Run;
    UnlinkedAgain();
    var s0 := Small(Entry(1, 1, true, NONE, 2, 0), Gone, Ref(0, Held), Dinode(2, 0), 0, 0);
    var s1 := Small(Entry(1, 1, true, 1, 2, 0), Gone, Ref(0, PutLocked), Dinode(2, 0), 0, 0);
    Goes(s0, PutLock(1), s1);
    var s2 := Small(Entry(1, 1, true, 1, 2, 0), Gone, Ref(0, PutFreeing), Dinode(2, 0), 0, 0);
    Goes(s1, PutCheck(1), s2);
  }

  // ialloc() gives the number out again while iput() is between freeing the
  // inode and clearing valid: both then share the entry.
  lemma ReusedDuringPut()
    ensures Reachable(Small(Entry(1, 2, true, 1, 0, 0), Ref(0, Held), Ref(0, PutFreed), Dinode(3, 0), 0, 0))
  {
    hide Reachable, Run;
    PutSeesNoOther();
    var s0 := Small(Entry(1, 1, true, 1, 2, 0), Gone, Ref(0, PutFreeing), Dinode(2, 0), 0, 0);
    var s1 := Small(Entry(1, 1, true, 1, 0, 0), Gone, Ref(0, PutFreed), Dinode(0, 0), 0, 0);
    Goes(s0, PutFree(1), s1);
    var s2 := Small(Entry(1, 1, true, 1, 0, 0), Marked(1), Ref(0, PutFreed), Dinode(3, 0), 0, 0);
    Goes(s1, Mark(0, 1, 3), s2);
    var s3 := Small(Entry(1, 2, true, 1, 0, 0), Ref(0, Held), Ref(0, PutFreed), Dinode(3, 0), 0, 0);
    Goes(s2, AllocGet(0), s3);
  }
}
