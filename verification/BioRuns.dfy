// Whole runs of bio.c: any number of users of any number of buffers, with
// bcache.lock and the sleep locks as atomic sections.
module BioRuns {
  import opened Blocks
  import opened Bio

  datatype Phase =
    | Waiting            // counted in refcnt, waiting for the sleep lock
    | Locked             // in bread(), with the sleep lock
    | Holding(saved: bool)
    | Leaving            // in brelse(), sleep lock released

  // A user of the cache: after bget() it refers to buffer b.
  datatype Handle = Gone | Ref(b: nat, ph: Phase)

  datatype Panic = NoPanic | Exhausted | NotHolding

  // History: stamp is when a buffer was last put at the front, logical what
  // each block holds as its users see it.
  datatype Sys = Sys(
    bufs: seq<Buf>,
    order: seq<nat>,
    hs: seq<Handle>,
    disk: seq<Block>,
    logical: seq<Block>,
    stamp: seq<nat>,
    clock: nat,
    panic: Panic)

  datatype Step =
    | Get(h: nat, key: nat)
    | Acquire(h: nat)
    | Fetch(h: nat)
    | Modify(h: nat, data: Block)
    | LogWrite(h: nat)           // log_write(): keep it dirty
    | Bwrite(h: nat)
    | Release(h: nat)
    | Drop(h: nat)

  predicate HasRef(s: Sys, h: nat) {
    h < |s.hs| && s.hs[h].Ref? && s.hs[h].b < |s.bufs| && s.bufs[s.hs[h].b].key < |s.disk|
  }

  predicate Sized(s: Sys) {
    Permutation(s.order, |s.bufs|) && |s.stamp| == |s.bufs| && |s.logical| == |s.disk|
  }

  // The lock holder may use the buffer; what it changed must be written or
  // logged before it lets go.
  predicate Enabled(s: Sys, t: Step) {
    && s.panic.NoPanic? && Sized(s)
    && match t
       case Get(h, key) => h < |s.hs| && s.hs[h].Gone? && key < |s.disk|
       case Acquire(h) => HasRef(s, h) && s.hs[h].ph.Waiting? && s.bufs[s.hs[h].b].holder == NONE
       case Fetch(h) => HasRef(s, h) && s.hs[h].ph.Locked?
       case Modify(h, _) => HasRef(s, h) && s.hs[h].ph.Holding?
       case LogWrite(h) => HasRef(s, h) && s.hs[h].ph.Holding?
       case Bwrite(h) => HasRef(s, h) && s.hs[h].ph.Holding?
       case Release(h) => HasRef(s, h) && s.hs[h].ph == Holding(true)
       case Drop(h) => HasRef(s, h) && s.hs[h].ph.Leaving? && s.bufs[s.hs[h].b].refcnt > 0
  }

  function Move(s: Sys, h: nat, y: Buf, ph: Phase): Sys
    requires HasRef(s, h)
  {
    s.(bufs := s.bufs[s.hs[h].b := y], hs := s.hs[h := Ref(s.hs[h].b, ph)])
  }

  function DoGet(s: Sys, h: nat, key: nat): Sys
    requires h < |s.hs| && InRange(s.order, |s.bufs|)
  {
    var g := Choice(s.bufs, s.order, key);
    if g.NoBuffers? then s.(panic := Exhausted)
    else s.(bufs := s.bufs[g.b := Taken(s.bufs[g.b], g, key)], hs := s.hs[h := Ref(g.b, Waiting)])
  }

  // brelse() under bcache.lock.
  function DoDrop(s: Sys, h: nat): Sys
    requires HasRef(s, h) && Sized(s) && s.bufs[s.hs[h].b].refcnt > 0
  {
    var b := s.hs[h].b;
    var x := s.bufs[b];
    var s1 := s.(bufs := s.bufs[b := x.(refcnt := x.refcnt - 1)], hs := s.hs[h := Gone]);
    if x.refcnt == 1 then
      s1.(order := ToFront(s.order, Place(s.order, b, 0)), stamp := s.stamp[b := s.clock], clock := s.clock + 1)
    else s1
  }

  // Where b is in the list.
  function Place(order: seq<nat>, b: nat, i: nat): (j: nat)
    requires i <= |order| && b in order[i..]
    ensures i <= j < |order| && order[j] == b
    decreases |order| - i
  {
    if order[i] == b then i else Place(order, b, i + 1)
  }

  function Do(s: Sys, t: Step): Sys
    requires Enabled(s, t)
  {
    match t
    case Get(h, key) => DoGet(s, h, key)
    case Acquire(h) => Move(s, h, s.bufs[s.hs[h].b].(holder := h), Locked)
    case Fetch(h) =>
      var x := s.bufs[s.hs[h].b];
      Move(s, h, if x.valid then x else x.(valid := true, data := s.disk[x.key]), Holding(true))
    case Modify(h, data) =>
      var x := s.bufs[s.hs[h].b];
      Move(s, h, x.(data := data), Holding(false)).(logical := s.logical[x.key := data])
    case LogWrite(h) => Move(s, h, s.bufs[s.hs[h].b].(dirty := true), Holding(true))
    case Bwrite(h) =>
      var x := s.bufs[s.hs[h].b];
      if x.holder != h then s.(panic := NotHolding)
      else Move(s, h, x.(dirty := false, valid := true), Holding(true)).(disk := s.disk[x.key := x.data])
    case Release(h) =>
      var x := s.bufs[s.hs[h].b];
      if x.holder != h then s.(panic := NotHolding) else Move(s, h, x.(holder := NONE), Leaving)
    case Drop(h) => DoDrop(s, h)
  }

  function Next(s: Sys, t: Step): Sys {
    if Enabled(s, t) then Do(s, t) else s
  }

  function Run(s: Sys, ts: seq<Step>): Sys {
    if ts == [] then s else Next(Run(s, ts[..|ts| - 1]), ts[|ts| - 1])
  }

  // After binit(): buffer b was pushed at time b.
  predicate Init(s: Sys) {
    && s.panic.NoPanic? && s.logical == s.disk
    && (forall b | 0 <= b < |s.bufs| :: s.bufs[b] == Buf(ZERO, 0, false, false, NONE, ZeroBlock()))
    && |s.order| == |s.bufs| && (forall i | 0 <= i < |s.order| :: s.order[i] == |s.bufs| - 1 - i)
    && |s.stamp| == |s.bufs| && (forall b | 0 <= b < |s.bufs| :: s.stamp[b] == b) && s.clock == |s.bufs|
    && (forall h | 0 <= h < |s.hs| :: s.hs[h].Gone?)
  }

  // ---- The invariant ----

  // Never used since binit().
  predicate Untouched(x: Buf) {
    x.refcnt == 0 && !x.valid && !x.dirty && x.key == ZERO
  }

  // The list is in the order of the stamps.
  predicate OrderOk(order: seq<nat>, stamp: seq<nat>, clock: nat) {
    && Permutation(order, |stamp|)
    && (forall i, j | 0 <= i < j < |order| :: stamp[order[i]] > stamp[order[j]])
    && (forall b | 0 <= b < |stamp| :: stamp[b] < clock)
  }

  // Of two buffers with the same key, the later in the list is untouched.
  predicate KeysOk(bufs: seq<Buf>, order: seq<nat>) {
    && InRange(order, |bufs|)
    && forall i, j | 0 <= i < j < |order| && bufs[order[i]].key == bufs[order[j]].key ::
         Untouched(bufs[order[j]])
  }

  function Refs(hs: seq<Handle>, b: nat): nat {
    if hs == [] then 0
    else Refs(hs[1..], b) + if hs[0].Ref? && hs[0].b == b then 1 else 0
  }

  predicate RefsOk(bufs: seq<Buf>, hs: seq<Handle>) {
    forall b | 0 <= b < |bufs| :: bufs[b].refcnt == Refs(hs, b)
  }

  predicate HandleOk(x: Handle, h: nat, bufs: seq<Buf>, nblocks: nat) {
    x.Ref? ==>
      && x.b < |bufs| && bufs[x.b].key < nblocks
      && (x.ph.Locked? || x.ph.Holding? ==> bufs[x.b].holder == h)
      && (x.ph.Holding? ==> bufs[x.b].valid)
  }

  predicate HandlesOk(hs: seq<Handle>, bufs: seq<Buf>, nblocks: nat) {
    forall h | 0 <= h < |hs| :: HandleOk(hs[h], h, bufs, nblocks)
  }

  // The holder is a user of this buffer; a valid buffer has the logical
  // contents, and the disk has them too unless it is dirty or being changed.
  predicate BufOk(x: Buf, b: nat, hs: seq<Handle>, disk: seq<Block>, logical: seq<Block>)
    requires |disk| == |logical|
  {
    && (x.holder != NONE ==>
          && 0 <= x.holder < |hs| && hs[x.holder].Ref? && hs[x.holder].b == b
          && (hs[x.holder].ph.Locked? || hs[x.holder].ph.Holding?))
    && (x.dirty ==> x.valid)
    && (x.valid ==> x.key < |disk| && x.data == logical[x.key])
    && (x.valid && !x.dirty && (x.holder == NONE || hs[x.holder].ph != Holding(false)) ==>
          disk[x.key] == x.data)
  }

  predicate BufsOk(bufs: seq<Buf>, hs: seq<Handle>, disk: seq<Block>, logical: seq<Block>) {
    |disk| == |logical| && forall b | 0 <= b < |bufs| :: BufOk(bufs[b], b, hs, disk, logical)
  }

  predicate HoldsKey(x: Buf, k: nat) {
    x.valid && x.key == k
  }

  // A block that no buffer holds is up to date on disk.
  predicate DiskOk(bufs: seq<Buf>, disk: seq<Block>, logical: seq<Block>) {
    |disk| == |logical| &&
    forall k | 0 <= k < |disk| && disk[k] != logical[k] :: exists b | 0 <= b < |bufs| :: HoldsKey(bufs[b], k)
  }

  predicate Inv(s: Sys) {
    && |s.stamp| == |s.bufs| && OrderOk(s.order, s.stamp, s.clock) && KeysOk(s.bufs, s.order)
    && RefsOk(s.bufs, s.hs) && HandlesOk(s.hs, s.bufs, |s.disk|)
    && BufsOk(s.bufs, s.hs, s.disk, s.logical) && DiskOk(s.bufs, s.disk, s.logical)
    && s.panic != NotHolding
  }

  // ---- Counting users ----

  lemma {:induction false} RefsUpdate(hs: seq<Handle>, h: nat, x: Handle, b: nat)
    requires h < |hs|
    ensures Refs(hs[h := x], b) ==
              Refs(hs, b) + (if x.Ref? && x.b == b then 1 else 0) - (if hs[h].Ref? && hs[h].b == b then 1 else 0)
  {
    if h == 0 {
      assert hs[h := x][1..] == hs[1..];
    } else {
      assert hs[h := x][1..] == hs[1..][h - 1 := x];
      RefsUpdate(hs[1..], h - 1, x, b);
    }
  }

  lemma {:induction false} RefCounted(hs: seq<Handle>, h: nat, b: nat)
    requires h < |hs| && hs[h].Ref? && hs[h].b == b
    ensures Refs(hs, b) >= 1
  {
    if h > 0 { RefCounted(hs[1..], h - 1, b); }
  }

  lemma {:induction false} NoRefs(hs: seq<Handle>, b: nat)
    requires forall h | 0 <= h < |hs| :: hs[h].Gone?
    ensures Refs(hs, b) == 0
  {
    if hs != [] { NoRefs(hs[1..], b); }
  }
}
