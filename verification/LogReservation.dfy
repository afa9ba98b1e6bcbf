// An operation that writes few blocks stays within its reservation: the join
// between the blocks that a file system operation passes to log_write() and
// the entries that the log reserves for it.
module LogReservation {
  import opened Blocks
  import opened LogFormat
  import opened LogRuns
  import opened LogTheorems
  import FsContent
  import FsState

  // Operation p is under way, and its entries are among the blocks in S.
  ghost predicate Within(s: Sys, p: nat, id: nat, S: set<nat>, A: set<nat>) {
    && p < |s.ops| && s.ops[p].Running? && s.ops[p].id == id && s.ops[p].added == |A|
    && A <= S && forall b | b in A :: b in s.st.lh
  }

  // A step of a run in which p logs only blocks in S, and neither p ends nor
  // the machine.
  predicate StaysWithin(t: Step, p: nat, S: set<nat>) {
    match t
    case LogWrite(q, b, _) => q == p ==> b in S
    case EndOp(q) => q != p
    case Crash => false
    case BeginOp(_) => true
    case BlockWrite => true
    case Finish => true
    case LoadBlock(_) => true
    case Evict(_) => true
  }

  // No commit is on while p is running, so the list only grows.
  lemma ListGrows(s: Sys, t: Step, p: nat, S: set<nat>)
    requires OpsInv(s) && p < |s.ops| && s.ops[p].Running? && StaysWithin(t, p, S)
    ensures forall b | b in s.st.lh :: b in Next(s, t).st.lh
  {
    SumBounds(s.ops, p);
  }

  // Operation p gets a new entry for block b.
  ghost predicate Adds(s: Sys, t: Step, p: nat) {
    Enabled(s, t) && t.LogWrite? && t.p == p && !LogFull(s) && t.block !in s.st.lh
  }

  lemma OpCounts(s: Sys, t: Step, p: nat, S: set<nat>)
    requires OpsInv(s) && p < |s.ops| && s.ops[p].Running? && StaysWithin(t, p, S)
    ensures var s' := Next(s, t);
      && p < |s'.ops| && s'.ops[p].Running? && s'.ops[p].id == s.ops[p].id
      && s'.ops[p].added == s.ops[p].added + (if Adds(s, t, p) then 1 else 0)
      && (Adds(s, t, p) ==> t.block in s'.st.lh && t.block in S)
  {
    SumBounds(s.ops, p);
  }

  lemma WithinNext(s: Sys, t: Step, p: nat, id: nat, S: set<nat>, A: set<nat>) returns (A': set<nat>)
    requires OpsInv(s) && Within(s, p, id, S, A) && StaysWithin(t, p, S)
    ensures Within(Next(s, t), p, id, S, A')
  {
    hide OpsInv, Next, Enabled;
    ListGrows(s, t, p, S);
    OpCounts(s, t, p, S);
    A' := A;
    if Adds(s, t, p) { A' := A + {t.block as nat}; }
  }

  lemma {:induction false} WithinRun(s: Sys, ts: seq<Step>, p: nat, S: set<nat>) returns (A: set<nat>)
    requires Reachable(s) && p < |s.ops| && s.ops[p].Running? && s.ops[p].added == 0
    requires forall i | 0 <= i < |ts| :: StaysWithin(ts[i], p, S)
    ensures Reachable(Run(s, ts)) && Within(Run(s, ts), p, s.ops[p].id, S, A)
  {
    if ts == [] {
      A := {};
    } else {
      var pre, t := ts[..|ts| - 1], ts[|ts| - 1];
      A := WithinRun(s, pre, p, S);
      ReachableInv(Run(s, pre));
      A := WithinNext(Run(s, pre), t, p, s.ops[p].id, S, A);
      ReachableOn(Run(s, pre), t);
    }
  }

  lemma ReachableOn(s: Sys, t: Step)
    requires Reachable(s)
    ensures Reachable(Next(s, t))
  {
    var L, d, nproc, ts :| GoodDisk(L, d) && s == Run(Boot(L, d, nproc), ts);
    RunAppend(Boot(L, d, nproc), ts, t);
  }

  // An operation that logs only blocks of a set of at most MAXOPBLOCKS, as a
  // chunk of filewrite() does, always has reservation left for a block of the
  // set that is not in the list; and with a log of more than LOGSIZE blocks
  // it is not refused.
  lemma FewBlocksFitReservation(s: Sys, ts: seq<Step>, p: nat, S: set<nat>, b: nat)
    requires Reachable(s) && p < |s.ops| && s.ops[p].Running? && s.ops[p].added == 0
    requires |S| <= MAXOPBLOCKS && forall i | 0 <= i < |ts| :: StaysWithin(ts[i], p, S)
    requires b in S
    ensures var s' := Run(s, ts);
      && p < |s'.ops| && s'.ops[p].Running? && s'.ops[p].id == s.ops[p].id && s'.ops[p].added <= |S|
      && (b !in s'.st.lh ==> s'.ops[p].added < MAXOPBLOCKS)
      && (b !in s'.st.lh && s'.st.L.size > LOGSIZE ==> !LogFull(s'))
  {
    hide Run, Reachable;
    var A := WithinRun(s, ts, p, S);
    var s' := Run(s, ts);
    FsContent.SubsetCard(A, S);
    if b !in s'.st.lh {
      FsContent.SubsetCard(A, S - {b});
      if s'.st.L.size > LOGSIZE { LogSpaceSuffices(s', p); }
    }
  }

  // So a chunk of filewrite(): whatever it writes, the blocks it passes to
  // log_write() find room.
  lemma ChunkFitsReservation(s: Sys, ts: seq<Step>, p: nat, S: set<nat>, b: nat,
                             sb: FsState.Super, blocks0: seq<Block>, inodes0: seq<FsState.Inode>,
                             blocks: seq<Block>, inodes: seq<FsState.Inode>, i: nat, src: seq<Byte>, off: nat)
    requires FsState.InodesOk(inodes0, |blocks0|) && i < |inodes0| && off <= inodes0[i].size && |src| <= 1536
    requires FsState.InodesOk(inodes, |blocks|) && |inodes| == |inodes0|
    requires FsContent.Written(sb, blocks0, inodes0, {}, blocks, inodes, S, i, src, off)
    requires Reachable(s) && p < |s.ops| && s.ops[p].Running? && s.ops[p].added == 0
    requires forall i | 0 <= i < |ts| :: StaysWithin(ts[i], p, S)
    requires b in S && s.st.L.size > LOGSIZE
    ensures b !in Run(s, ts).st.lh ==> !LogFull(Run(s, ts))
  {
    hide Run, Reachable;
    FsContent.ChunkFits(inodes0[i].size, off, |src|);
    assert S - {} == S;
    FewBlocksFitReservation(s, ts, p, S, b);
    SameLog(s, ts);
  }

  lemma {:induction false} SameLog(s: Sys, ts: seq<Step>)
    ensures Run(s, ts).st.L == s.st.L
  {
    if ts != [] {
      SameLog(s, ts[..|ts| - 1]);
      NextFixed(Run(s, ts[..|ts| - 1]), ts[|ts| - 1]);
    }
  }
}
