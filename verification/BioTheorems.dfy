// What bio.c promises its users, in every reachable state.
module BioTheorems {
  import opened Blocks
  import opened Bio
  import opened BioRuns
  import opened BioSafety

  lemma {:induction false} RunInv(s: Sys, ts: seq<Step>)
    requires Init(s)
    ensures Inv(Run(s, ts))
  {
    if ts == [] {
      InitInv(s);
    } else {
      RunInv(s, ts[..|ts| - 1]);
      NextInv(Run(s, ts[..|ts| - 1]), ts[|ts| - 1]);
    }
  }

  ghost predicate Reachable(s: Sys) {
    exists s0, ts :: Init(s0) && s == Run(s0, ts)
  }

  lemma ReachableInv(s: Sys)
    requires Reachable(s)
    ensures Inv(s)
  {
    var s0, ts :| Init(s0) && s == Run(s0, ts);
    RunInv(s0, ts);
  }

  // At most one buffer for each block is in use, even for key (0, 0), with
  // which all buffers start: the others are as binit() left them.
  lemma OneBufferPerBlock(s: Sys, b: nat, c: nat)
    requires Reachable(s) && b < |s.bufs| && c < |s.bufs| && b != c && s.bufs[b].key == s.bufs[c].key
    ensures Untouched(s.bufs[b]) || Untouched(s.bufs[c])
  {
    ReachableInv(s);
    SameKey(s.bufs, s.order, b, c);
  }

  // After bread() the user alone has the block, with its latest contents.
  lemma BreadIsLatestAndExclusive(s: Sys, h: nat)
    requires Reachable(s) && HasRef(s, h) && s.hs[h].ph.Holding?
    ensures var x := s.bufs[s.hs[h].b]; |s.logical| == |s.disk| && x.valid && x.data == s.logical[x.key]
    ensures forall g: nat | HasRef(s, g) && g != h && (s.hs[g].ph.Locked? || s.hs[g].ph.Holding?) ::
              s.bufs[s.hs[g].b].key != s.bufs[s.hs[h].b].key
  {
    ReachableInv(s);
    UserFacts(s, h);
    forall g: nat | HasRef(s, g) && g != h && (s.hs[g].ph.Locked? || s.hs[g].ph.Holding?)
      ensures s.bufs[s.hs[g].b].key != s.bufs[s.hs[h].b].key
    {
      UserFacts(s, g);
      if s.bufs[s.hs[g].b].key == s.bufs[s.hs[h].b].key {
        SameKey(s.bufs, s.order, s.hs[g].b, s.hs[h].b);
      }
    }
  }

  // What a block holds, wherever it is: its valid buffer or else the disk.
  lemma CacheIsBlockMap(s: Sys, k: nat)
    requires Reachable(s) && k < |s.disk|
    ensures |s.logical| == |s.disk|
    ensures forall b | 0 <= b < |s.bufs| && HoldsKey(s.bufs[b], k) :: s.bufs[b].data == s.logical[k]
    ensures (forall b | 0 <= b < |s.bufs| :: !HoldsKey(s.bufs[b], k)) ==> s.disk[k] == s.logical[k]
  {
    ReachableInv(s);
    forall b | 0 <= b < |s.bufs| && HoldsKey(s.bufs[b], k) ensures s.bufs[b].data == s.logical[k] {
      assert BufOk(s.bufs[b], b, s.hs, s.disk, s.logical);
    }
  }

  lemma GetKeepsPinned(bufs: seq<Buf>, order: seq<nat>, key: nat, b: nat)
    requires InRange(order, |bufs|) && b < |bufs| && (bufs[b].dirty || bufs[b].refcnt > 0)
    ensures Choice(bufs, order, key) != Recycled(b)
    ensures Choice(bufs, order, key).NoBuffers? || Choice(bufs, order, key).b < |bufs|
  {
  }

  // A buffer that log.c keeps dirty, or that has a user, keeps its block.
  lemma PinnedIsNotRecycled(s: Sys, t: Step, b: nat)
    requires Reachable(s) && b < |s.bufs| && (s.bufs[b].dirty || s.bufs[b].refcnt > 0)
    ensures |Next(s, t).bufs| == |s.bufs|
    ensures Next(s, t).bufs[b].key == s.bufs[b].key && (s.bufs[b].valid ==> Next(s, t).bufs[b].valid)
    ensures s.bufs[b].dirty ==> Next(s, t).bufs[b].dirty || t.Bwrite?
  {
    hide Choice;
    ReachableInv(s);
    assert BufOk(s.bufs[b], b, s.hs, s.disk, s.logical);
    if t.Get? { GetKeepsPinned(s.bufs, s.order, t.key, b); }
  }

  // The buffer that bget() recycles was released before every other one it
  // could have taken.
  lemma RecyclesLeastRecentlyReleased(s: Sys, key: nat, c: nat)
    requires Reachable(s) && InRange(s.order, |s.bufs|) && Choice(s.bufs, s.order, key).Recycled?
    requires c < |s.bufs| && Unused(s.bufs[c]) && |s.stamp| == |s.bufs|
    ensures var b := Choice(s.bufs, s.order, key).b;
      b < |s.bufs| && Unused(s.bufs[b]) && (b != c ==> s.stamp[b] < s.stamp[c])
  {
    hide Reachable, KeysOk, RefsOk, HandlesOk, BufsOk, DiskOk;
    ReachableInv(s);
    LastUnusedIsOldest(s.bufs, s.order, s.stamp, s.clock, c);
  }

  lemma LastUnusedIsOldest(bufs: seq<Buf>, order: seq<nat>, stamp: seq<nat>, clock: nat, c: nat)
    requires |stamp| == |bufs| && OrderOk(order, stamp, clock) && c < |bufs| && Unused(bufs[c])
    ensures var j := LastUnused(bufs, order, |order|);
      j > 0 && (order[j - 1] != c ==> stamp[order[j - 1]] < stamp[c])
  {
    assert c in order;
    var i :| 0 <= i < |order| && order[i] == c;
  }

  // The stamps are the times of the releases that left no user.
  lemma StampsAreReleases(s: Sys, t: Step, b: nat)
    requires Reachable(s) && b < |s.bufs| && |s.stamp| == |s.bufs|
    ensures |Next(s, t).stamp| == |s.stamp|
    ensures Next(s, t).stamp[b] != s.stamp[b] <==>
              Enabled(s, t) && t.Drop? && s.hs[t.h].b == b && s.bufs[b].refcnt == 1
    ensures Next(s, t).stamp[b] != s.stamp[b] ==>
              forall c | 0 <= c < |s.bufs| && c != b :: Next(s, t).stamp[c] < Next(s, t).stamp[b]
  {
    ReachableInv(s);
  }

  // What users change: a block's contents change by Modify alone, to what it
  // says; the disk by bwrite() alone, which leaves the buffer clean; and
  // log_write() makes the buffer dirty.
  lemma UsersChange(s: Sys, t: Step, k: nat)
    requires Reachable(s) && k < |s.disk|
    ensures var s' := Next(s, t);
      && |s'.disk| == |s.disk| == |s.logical| == |s'.logical|
      && s'.logical[k] == (if Enabled(s, t) && t.Modify? && s.bufs[s.hs[t.h].b].key == k then t.data
                           else s.logical[k])
      && s'.disk[k] == (if Enabled(s, t) && t.Bwrite? && s.bufs[s.hs[t.h].b].key == k then s.logical[k]
                        else s.disk[k])
  {
    ReachableInv(s);
    if Enabled(s, t) && t.Bwrite? { UserFacts(s, t.h); }
  }

  lemma BuffersMarked(s: Sys, h: nat)
    requires Reachable(s)
    ensures Enabled(s, Bwrite(h)) ==>
              var b, s' := s.hs[h].b, Next(s, Bwrite(h)); s'.bufs == s.bufs[b := s.bufs[b].(dirty := false)]
    ensures Enabled(s, LogWrite(h)) ==>
              var b, s' := s.hs[h].b, Next(s, LogWrite(h)); s'.bufs == s.bufs[b := s.bufs[b].(dirty := true)]
  {
    ReachableInv(s);
    if HasRef(s, h) { UserFacts(s, h); }
  }

  // bget() runs out of buffers exactly if it must.
  lemma GetExhausted(s: Sys, h: nat, key: nat)
    requires Reachable(s) && Enabled(s, Get(h, key))
    ensures Next(s, Get(h, key)).panic == Exhausted <==>
              forall b | 0 <= b < |s.bufs| :: s.bufs[b].key != key && (s.bufs[b].refcnt > 0 || s.bufs[b].dirty)
    ensures var s' := Next(s, Get(h, key));
      s'.panic == NoPanic ==>
        s'.hs[h].Ref? && s'.hs[h].ph == Waiting && s'.hs[h].b < |s'.bufs| && s'.bufs[s'.hs[h].b].key == key
  {
    hide Choice;
    ChoiceIs(s.bufs, s.order, key);
  }

  lemma NoHolderPanics(s: Sys)
    requires Reachable(s)
    ensures s.panic != NotHolding
  {
    ReachableInv(s);
  }
}
