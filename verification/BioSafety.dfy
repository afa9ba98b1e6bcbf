// What every run of bio.c keeps, and what follows for its users.
module BioSafety {
  import opened Blocks
  import opened Bio
  import opened BioRuns

  lemma InitInv(s: Sys)
    requires Init(s)
    ensures Inv(s)
  {
    forall b | 0 <= b < |s.bufs| ensures s.bufs[b].refcnt == Refs(s.hs, b) && b in s.order {
      NoRefs(s.hs, b);
      assert s.order[|s.bufs| - 1 - b] == b;
    }
  }

  // ---- Two buffers with one key ----

  lemma SameKey(bufs: seq<Buf>, order: seq<nat>, b: nat, c: nat)
    requires Permutation(order, |bufs|) && KeysOk(bufs, order)
    requires b < |bufs| && c < |bufs| && b != c && bufs[b].key == bufs[c].key
    ensures Untouched(bufs[b]) || Untouched(bufs[c])
  {
    assert b in order && c in order;
    var i :| 0 <= i < |order| && order[i] == b;
    var j :| 0 <= j < |order| && order[j] == c;
    assert i != j;
  }

  // ---- A user moves between phases ----

  ghost predicate SameBuf(x: Buf, y: Buf) {
    y.key == x.key && y.refcnt == x.refcnt && (x.valid ==> y.valid)
  }

  lemma MoveKeys(bufs: seq<Buf>, order: seq<nat>, b: nat, y: Buf)
    requires b < |bufs| && SameBuf(bufs[b], y) && bufs[b].refcnt > 0 && KeysOk(bufs, order)
    ensures KeysOk(bufs[b := y], order)
  {
  }

  lemma MoveUsers(s: Sys, h: nat, y: Buf, ph: Phase)
    requires HasRef(s, h) && SameBuf(s.bufs[s.hs[h].b], y)
    requires RefsOk(s.bufs, s.hs) && HandlesOk(s.hs, s.bufs, |s.disk|)
    requires s.bufs[s.hs[h].b].holder == NONE || s.bufs[s.hs[h].b].holder == h
    requires HandleOk(Ref(s.hs[h].b, ph), h, s.bufs[s.hs[h].b := y], |s.disk|)
    ensures RefsOk(s.bufs[s.hs[h].b := y], s.hs[h := Ref(s.hs[h].b, ph)])
    ensures HandlesOk(s.hs[h := Ref(s.hs[h].b, ph)], s.bufs[s.hs[h].b := y], |s.disk|)
  {
    var bufs, hs := s.bufs[s.hs[h].b := y], s.hs[h := Ref(s.hs[h].b, ph)];
    forall b | 0 <= b < |bufs| ensures bufs[b].refcnt == Refs(hs, b) {
      RefsUpdate(s.hs, h, Ref(s.hs[h].b, ph), b);
    }
    forall g | 0 <= g < |hs| ensures HandleOk(hs[g], g, bufs, |s.disk|) {
      assert HandleOk(s.hs[g], g, s.bufs, |s.disk|);
    }
  }

  lemma MoveBufs(s: Sys, h: nat, y: Buf, ph: Phase)
    requires HasRef(s, h) && BufsOk(s.bufs, s.hs, s.disk, s.logical)
    requires BufOk(y, s.hs[h].b, s.hs[h := Ref(s.hs[h].b, ph)], s.disk, s.logical)
    ensures BufsOk(s.bufs[s.hs[h].b := y], s.hs[h := Ref(s.hs[h].b, ph)], s.disk, s.logical)
  {
    var bufs, hs := s.bufs[s.hs[h].b := y], s.hs[h := Ref(s.hs[h].b, ph)];
    forall b | 0 <= b < |bufs| ensures BufOk(bufs[b], b, hs, s.disk, s.logical) {
      assert BufOk(s.bufs[b], b, s.hs, s.disk, s.logical);
    }
  }

  lemma MoveDisk(bufs: seq<Buf>, disk: seq<Block>, logical: seq<Block>, b: nat, y: Buf)
    requires b < |bufs| && DiskOk(bufs, disk, logical)
    requires y.key == bufs[b].key && (bufs[b].valid ==> y.valid)
    ensures DiskOk(bufs[b := y], disk, logical)
  {
    var bufs' := bufs[b := y];
    forall k | 0 <= k < |disk| && disk[k] != logical[k]
      ensures exists c | 0 <= c < |bufs'| :: HoldsKey(bufs'[c], k)
    {
      var c :| 0 <= c < |bufs| && HoldsKey(bufs[c], k);
      assert HoldsKey(bufs'[c], k);
    }
  }

  // What the invariant says of one user.
  lemma UserFacts(s: Sys, h: nat)
    requires Inv(s) && HasRef(s, h)
    ensures HandleOk(s.hs[h], h, s.bufs, |s.disk|)
    ensures BufOk(s.bufs[s.hs[h].b], s.hs[h].b, s.hs, s.disk, s.logical)
    ensures s.bufs[s.hs[h].b].refcnt >= 1
  {
    RefCounted(s.hs, h, s.hs[h].b);
  }

  lemma MoveInv(s: Sys, h: nat, y: Buf, ph: Phase)
    requires Inv(s) && HasRef(s, h) && SameBuf(s.bufs[s.hs[h].b], y)
    requires s.bufs[s.hs[h].b].holder == NONE || s.bufs[s.hs[h].b].holder == h
    requires HandleOk(Ref(s.hs[h].b, ph), h, s.bufs[s.hs[h].b := y], |s.disk|)
    requires BufOk(y, s.hs[h].b, s.hs[h := Ref(s.hs[h].b, ph)], s.disk, s.logical)
    ensures Inv(Move(s, h, y, ph))
  {
    hide OrderOk, KeysOk, RefsOk, HandlesOk, BufsOk, DiskOk;
    UserFacts(s, h);
    MoveKeys(s.bufs, s.order, s.hs[h].b, y);
    MoveUsers(s, h, y, ph);
    MoveBufs(s, h, y, ph);
    MoveDisk(s.bufs, s.disk, s.logical, s.hs[h].b, y);
  }

  lemma PhaseInv(s: Sys, t: Step)
    requires Inv(s) && Enabled(s, t) && (t.Acquire? || t.LogWrite? || t.Release?)
    ensures Inv(Do(s, t))
  {
    UserFacts(s, t.h);
    var s' := Do(s, t);
    MoveInv(s, t.h, s'.bufs[s.hs[t.h].b], s'.hs[t.h].ph);
  }

  // A block that is read from disk has no other valid buffer, so the disk
  // is up to date.
  lemma DiskCurrent(s: Sys, h: nat)
    requires Inv(s) && HasRef(s, h) && !s.bufs[s.hs[h].b].valid
    ensures s.disk[s.bufs[s.hs[h].b].key] == s.logical[s.bufs[s.hs[h].b].key]
  {
    var b := s.hs[h].b;
    var k := s.bufs[b].key;
    UserFacts(s, h);
    if s.disk[k] != s.logical[k] {
      var c :| 0 <= c < |s.bufs| && HoldsKey(s.bufs[c], k);
      SameKey(s.bufs, s.order, b, c);
    }
  }

  lemma FetchInv(s: Sys, t: Step)
    requires Inv(s) && Enabled(s, t) && t.Fetch?
    ensures Inv(Do(s, t))
  {
    UserFacts(s, t.h);
    if !s.bufs[s.hs[t.h].b].valid { DiskCurrent(s, t.h); }
    MoveInv(s, t.h, Do(s, t).bufs[s.hs[t.h].b], Holding(true));
  }

  // ---- Contents change ----

  // No other buffer has the key of a buffer in use, and is valid.
  lemma Alone(s: Sys, h: nat, c: nat)
    requires Inv(s) && HasRef(s, h) && c < |s.bufs| && c != s.hs[h].b && s.bufs[c].valid
    ensures s.bufs[c].key != s.bufs[s.hs[h].b].key
  {
    UserFacts(s, h);
    if s.bufs[c].key == s.bufs[s.hs[h].b].key { SameKey(s.bufs, s.order, s.hs[h].b, c); }
  }

  lemma ContentsInv(s: Sys, h: nat, y: Buf, ph: Phase, disk: seq<Block>, logical: seq<Block>)
    requires Inv(s) && HasRef(s, h) && s.hs[h].ph.Holding? && ph.Holding?
    requires SameBuf(s.bufs[s.hs[h].b], y) && y.valid && y.holder == h
    requires |disk| == |logical| == |s.disk| == |s.logical|
    requires var k := y.key; disk == s.disk[k := disk[k]] && logical == s.logical[k := logical[k]]
    requires BufOk(y, s.hs[h].b, s.hs[h := Ref(s.hs[h].b, ph)], disk, logical)
    ensures Inv(Move(s, h, y, ph).(disk := disk, logical := logical))
  {
    var s' := Move(s, h, y, ph).(disk := disk, logical := logical);
    UserFacts(s, h);
    MoveKeys(s.bufs, s.order, s.hs[h].b, y);
    MoveUsers(s, h, y, ph);
    forall b | 0 <= b < |s.bufs| ensures BufOk(s'.bufs[b], b, s'.hs, disk, logical) {
      assert BufOk(s.bufs[b], b, s.hs, s.disk, s.logical);
      if b != s.hs[h].b && s.bufs[b].valid { Alone(s, h, b); }
    }
    ContentsDisk(s, h, y, disk, logical);
  }

  lemma ContentsDisk(s: Sys, h: nat, y: Buf, disk: seq<Block>, logical: seq<Block>)
    requires HasRef(s, h) && DiskOk(s.bufs, s.disk, s.logical)
    requires SameBuf(s.bufs[s.hs[h].b], y) && y.valid && |disk| == |logical| == |s.disk|
    requires var k := y.key; disk == s.disk[k := disk[k]] && logical == s.logical[k := logical[k]]
    ensures DiskOk(s.bufs[s.hs[h].b := y], disk, logical)
  {
    var bufs' := s.bufs[s.hs[h].b := y];
    forall k | 0 <= k < |disk| && disk[k] != logical[k]
      ensures exists c | 0 <= c < |bufs'| :: HoldsKey(bufs'[c], k)
    {
      if k == y.key {
        assert HoldsKey(bufs'[s.hs[h].b], k);
      } else {
        assert s.disk[k] != s.logical[k];
        var c :| 0 <= c < |s.bufs| && HoldsKey(s.bufs[c], k);
        assert HoldsKey(bufs'[c], k);
      }
    }
  }

  lemma WriteInv(s: Sys, t: Step)
    requires Inv(s) && Enabled(s, t) && (t.Modify? || t.Bwrite?)
    ensures Inv(Do(s, t))
  {
    UserFacts(s, t.h);
    var s' := Do(s, t);
    ContentsInv(s, t.h, s'.bufs[s.hs[t.h].b], s'.hs[t.h].ph, s'.disk, s'.logical);
  }

  // ---- bget ----

  lemma TakenUsers(s: Sys, h: nat, b: nat, y: Buf)
    requires RefsOk(s.bufs, s.hs) && HandlesOk(s.hs, s.bufs, |s.disk|)
    requires h < |s.hs| && s.hs[h].Gone? && b < |s.bufs| && y.key < |s.disk|
    requires y.refcnt == s.bufs[b].refcnt + 1
    requires s.bufs[b].refcnt == 0 || y == s.bufs[b].(refcnt := y.refcnt)
    ensures RefsOk(s.bufs[b := y], s.hs[h := Ref(b, Waiting)])
    ensures HandlesOk(s.hs[h := Ref(b, Waiting)], s.bufs[b := y], |s.disk|)
  {
    var bufs, hs := s.bufs[b := y], s.hs[h := Ref(b, Waiting)];
    forall c | 0 <= c < |bufs| ensures bufs[c].refcnt == Refs(hs, c) {
      RefsUpdate(s.hs, h, Ref(b, Waiting), c);
    }
    forall g | 0 <= g < |hs| ensures HandleOk(hs[g], g, bufs, |s.disk|) {
      assert HandleOk(s.hs[g], g, s.bufs, |s.disk|);
      if g != h && s.hs[g].Ref? && s.hs[g].b == b { RefCounted(s.hs, g, b); }
    }
  }

  lemma TakenBufs(s: Sys, h: nat, b: nat, y: Buf)
    requires BufsOk(s.bufs, s.hs, s.disk, s.logical)
    requires h < |s.hs| && s.hs[h].Gone? && b < |s.bufs|
    requires y == s.bufs[b].(refcnt := y.refcnt) || (!y.valid && !y.dirty && y.holder == s.bufs[b].holder)
    ensures BufsOk(s.bufs[b := y], s.hs[h := Ref(b, Waiting)], s.disk, s.logical)
  {
    var bufs, hs := s.bufs[b := y], s.hs[h := Ref(b, Waiting)];
    forall c | 0 <= c < |bufs| ensures BufOk(bufs[c], c, hs, s.disk, s.logical) {
      assert BufOk(s.bufs[c], c, s.hs, s.disk, s.logical);
    }
  }

  // The first buffer with the key is the one that may be in use already.
  lemma FoundKeys(bufs: seq<Buf>, order: seq<nat>, key: nat)
    requires Permutation(order, |bufs|) && KeysOk(bufs, order) && FirstWith(bufs, order, key, 0) < |order|
    ensures var b := order[FirstWith(bufs, order, key, 0)];
      bufs[b].key == key && KeysOk(bufs[b := bufs[b].(refcnt := bufs[b].refcnt + 1)], order)
  {
  }

  // An untouched buffer behind the recycled one would have been taken first.
  lemma RecycledKeys(bufs: seq<Buf>, order: seq<nat>, key: nat, y: Buf)
    requires Permutation(order, |bufs|) && KeysOk(bufs, order)
    requires FirstWith(bufs, order, key, 0) == |order| && LastUnused(bufs, order, |order|) > 0
    requires y.key == key
    ensures KeysOk(bufs[order[LastUnused(bufs, order, |order|) - 1] := y], order)
  {
    var m := LastUnused(bufs, order, |order|) - 1;
    var bufs' := bufs[order[m] := y];
    forall i, j | 0 <= i < j < |order| && bufs'[order[i]].key == bufs'[order[j]].key
      ensures Untouched(bufs'[order[j]])
    {
    }
  }

  lemma RecycledDisk(s: Sys, b: nat, y: Buf)
    requires BufsOk(s.bufs, s.hs, s.disk, s.logical) && DiskOk(s.bufs, s.disk, s.logical)
    requires b < |s.bufs| && !s.bufs[b].dirty && s.bufs[b].holder == NONE
    ensures DiskOk(s.bufs[b := y], s.disk, s.logical)
  {
    var bufs' := s.bufs[b := y];
    forall k | 0 <= k < |s.disk| && s.disk[k] != s.logical[k]
      ensures exists c | 0 <= c < |bufs'| :: HoldsKey(bufs'[c], k)
    {
      var c :| 0 <= c < |s.bufs| && HoldsKey(s.bufs[c], k);
      assert BufOk(s.bufs[b], b, s.hs, s.disk, s.logical);
      assert c != b;
      assert HoldsKey(bufs'[c], k);
    }
  }

  lemma NoHolder(s: Sys, b: nat)
    requires Inv(s) && b < |s.bufs| && s.bufs[b].refcnt == 0
    ensures s.bufs[b].holder == NONE
  {
    assert BufOk(s.bufs[b], b, s.hs, s.disk, s.logical);
    if s.bufs[b].holder != NONE { RefCounted(s.hs, s.bufs[b].holder, b); }
  }

  lemma FoundInv(s: Sys, h: nat, key: nat)
    requires Inv(s) && h < |s.hs| && s.hs[h].Gone? && key < |s.disk|
    requires Choice(s.bufs, s.order, key).Found?
    ensures Inv(DoGet(s, h, key))
  {
    hide KeysOk, RefsOk, HandlesOk, BufsOk, DiskOk;
    FoundKeys(s.bufs, s.order, key);
    var b := Choice(s.bufs, s.order, key).b;
    var y := s.bufs[b].(refcnt := s.bufs[b].refcnt + 1);
    TakenUsers(s, h, b, y);
    TakenBufs(s, h, b, y);
    MoveDisk(s.bufs, s.disk, s.logical, b, y);
  }

  lemma RecycledInv(s: Sys, h: nat, key: nat)
    requires Inv(s) && h < |s.hs| && s.hs[h].Gone? && key < |s.disk|
    requires Choice(s.bufs, s.order, key).Recycled?
    ensures Inv(DoGet(s, h, key))
  {
    var b := Choice(s.bufs, s.order, key).b;
    var y := Taken(s.bufs[b], Recycled(b), key);
    NoHolder(s, b);
    RecycledKeys(s.bufs, s.order, key, y);
    TakenUsers(s, h, b, y);
    TakenBufs(s, h, b, y);
    RecycledDisk(s, b, y);
  }

  lemma GetInv(s: Sys, t: Step)
    requires Inv(s) && Enabled(s, t) && t.Get?
    ensures Inv(Do(s, t))
  {
    match Choice(s.bufs, s.order, t.key)
    case Found(_) => FoundInv(s, t.h, t.key);
    case Recycled(_) => RecycledInv(s, t.h, t.key);
    case NoBuffers =>
  }

  // ---- brelse ----

  lemma ToFrontOrder(order: seq<nat>, stamp: seq<nat>, clock: nat, i: nat)
    requires OrderOk(order, stamp, clock) && i < |order|
    ensures OrderOk(ToFront(order, i), stamp[order[i] := clock], clock + 1)
  {
    ToFrontPermutation(order, i, |stamp|);
  }

  lemma ToFrontKeys(bufs: seq<Buf>, order: seq<nat>, i: nat, y: Buf)
    requires KeysOk(bufs, order) && Distinct(order) && i < |order| && bufs[order[i]].refcnt > 0
    requires y.key == bufs[order[i]].key
    ensures KeysOk(bufs[order[i] := y], ToFront(order, i))
  {
    var r, bufs' := ToFront(order, i), bufs[order[i] := y];
    forall j, k | 0 <= j < k < |r| && bufs'[r[j]].key == bufs'[r[k]].key
      ensures Untouched(bufs'[r[k]])
    {
      var k0 := if k <= i then k - 1 else k;
      var j0 := if j == 0 then i else if j <= i then j - 1 else j;
      assert r[k] == order[k0] && r[j] == order[j0];
    }
  }

  lemma DropUsers(s: Sys, h: nat, y: Buf)
    requires HasRef(s, h) && RefsOk(s.bufs, s.hs) && HandlesOk(s.hs, s.bufs, |s.disk|)
    requires y == s.bufs[s.hs[h].b].(refcnt := y.refcnt) && y.refcnt == s.bufs[s.hs[h].b].refcnt - 1
    ensures RefsOk(s.bufs[s.hs[h].b := y], s.hs[h := Gone])
    ensures HandlesOk(s.hs[h := Gone], s.bufs[s.hs[h].b := y], |s.disk|)
  {
    var bufs, hs := s.bufs[s.hs[h].b := y], s.hs[h := Gone];
    forall c | 0 <= c < |bufs| ensures bufs[c].refcnt == Refs(hs, c) { RefsUpdate(s.hs, h, Gone, c); }
    forall g | 0 <= g < |hs| ensures HandleOk(hs[g], g, bufs, |s.disk|) {
      assert HandleOk(s.hs[g], g, s.bufs, |s.disk|);
    }
  }

  lemma DropBufs(s: Sys, h: nat, y: Buf)
    requires HasRef(s, h) && BufsOk(s.bufs, s.hs, s.disk, s.logical) && s.hs[h].ph.Leaving?
    requires y == s.bufs[s.hs[h].b].(refcnt := y.refcnt)
    ensures BufsOk(s.bufs[s.hs[h].b := y], s.hs[h := Gone], s.disk, s.logical)
  {
    var bufs, hs := s.bufs[s.hs[h].b := y], s.hs[h := Gone];
    forall c | 0 <= c < |bufs| ensures BufOk(bufs[c], c, hs, s.disk, s.logical) {
      assert BufOk(s.bufs[c], c, s.hs, s.disk, s.logical);
    }
  }

  lemma DropInv(s: Sys, t: Step)
    requires Inv(s) && Enabled(s, t) && t.Drop?
    ensures Inv(Do(s, t))
  {
    hide RefsOk, HandlesOk, BufsOk, DiskOk;
    var b := s.hs[t.h].b;
    var y := s.bufs[b].(refcnt := s.bufs[b].refcnt - 1);
    var i := Place(s.order, b, 0);
    UserFacts(s, t.h);
    DropUsers(s, t.h, y);
    DropBufs(s, t.h, y);
    MoveDisk(s.bufs, s.disk, s.logical, b, y);
    ToFrontOrder(s.order, s.stamp, s.clock, i);
    ToFrontKeys(s.bufs, s.order, i, y);
  }

  lemma NextInv(s: Sys, t: Step)
    requires Inv(s)
    ensures Inv(Next(s, t))
  {
    if Enabled(s, t) {
      match t
      case Get(_, _) => GetInv(s, t);
      case Acquire(_) => PhaseInv(s, t);
      case Fetch(_) => FetchInv(s, t);
      case Modify(_, _) => WriteInv(s, t);
      case LogWrite(_) => PhaseInv(s, t);
      case Bwrite(_) => WriteInv(s, t);
      case Release(_) => PhaseInv(s, t);
      case Drop(_) => DropInv(s, t);
    }
  }
}
