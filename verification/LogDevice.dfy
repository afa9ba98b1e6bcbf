// log.c as it is written: the in-memory log, updated in place, over a disk
// and a buffer cache.
module LogDevice {
  import opened Blocks
  import opened LogFormat

  // Device i + 1 of ds comes from device i by block write k + i.
  ghost predicate Follows(L: Layout, lh: seq<Word>, ds: seq<Dev>, k: nat, i: nat)
    requires i + 1 < |ds| && k + |ds| <= 2 * |lh| + 3
  {
    DevOk(L, ds[i], lh) && ds[i + 1] == WriteStep(L, ds[i], lh, k + i)
  }

  ghost predicate Chain(L: Layout, lh: seq<Word>, ds: seq<Dev>, k: nat) {
    && 1 <= |ds| && k + |ds| <= 2 * |lh| + 3
    && forall i | 0 <= i < |ds| - 1 :: Follows(L, lh, ds, k, i)
  }

  // write_head() takes d to e.
  ghost predicate HeadWrite(L: Layout, d: Dev, hdr: seq<Word>, e: Dev)
    requires L.start < |d.disk| && |hdr| <= LOGSIZE
  {
    e == d.Put(L.start, PutHeader(d.View(L.start), hdr))
  }

  ghost function Disks(ds: seq<Dev>): (r: seq<Disk>)
    ensures |r| == |ds| && forall i | 0 <= i < |ds| :: r[i] == ds[i].disk
  {
    seq(|ds|, i requires 0 <= i < |ds| => ds[i].disk)
  }

  lemma ChainSnoc(L: Layout, lh: seq<Word>, ds: seq<Dev>, k: nat, d: Dev)
    requires Chain(L, lh, ds, k) && k + |ds| < 2 * |lh| + 3
    requires DevOk(L, ds[|ds| - 1], lh) && d == WriteStep(L, ds[|ds| - 1], lh, k + |ds| - 1)
    ensures Chain(L, lh, ds + [d], k)
    ensures Disks((ds + [d])[1..]) == Disks(ds[1..]) + [d.disk]
  {
    forall i | 0 <= i < |ds| ensures Follows(L, lh, ds + [d], k, i) {
      if i < |ds| - 1 { assert Follows(L, lh, ds, k, i); }
    }
  }

  lemma ChainJoin(L: Layout, lh: seq<Word>, ds: seq<Dev>, k: nat, es: seq<Dev>)
    requires Chain(L, lh, ds, k) && Chain(L, lh, es, k + |ds| - 1) && es[0] == ds[|ds| - 1]
    ensures Chain(L, lh, ds + es[1..], k)
    ensures Disks((ds + es[1..])[1..]) == Disks(ds[1..]) + Disks(es[1..])
  {
    var fs := ds + es[1..];
    forall i | 0 <= i < |fs| - 1 ensures Follows(L, lh, fs, k, i) {
      if i < |ds| - 1 {
        assert Follows(L, lh, ds, k, i);
      } else {
        var j := i - |ds| + 1;
        assert Follows(L, lh, es, k + |ds| - 1, j) && fs[i] == es[j] && fs[i + 1] == es[j + 1];
      }
    }
  }

  // Appending one write of each kind.

  lemma SlotSnoc(L: Layout, lh: seq<Word>, ds: seq<Dev>, d: Dev)
    requires Chain(L, lh, ds, 0) && |ds| <= |lh| && DevOk(L, ds[|ds| - 1], lh)
    requires d == ds[|ds| - 1].Copy(L.start + |ds|, lh[|ds| - 1])
    ensures Chain(L, lh, ds + [d], 0)
    ensures Disks((ds + [d])[1..]) == Disks(ds[1..]) + [d.disk]
  {
    ChainSnoc(L, lh, ds, 0, d);
  }

  lemma HomeSnoc(L: Layout, lh: seq<Word>, ds: seq<Dev>, d: Dev)
    requires Chain(L, lh, ds, |lh| + 1) && |ds| <= |lh| && DevOk(L, ds[|ds| - 1], lh)
    requires d == ds[|ds| - 1].Copy(lh[|ds| - 1], L.start + |ds|)
    ensures Chain(L, lh, ds + [d], |lh| + 1)
    ensures Disks((ds + [d])[1..]) == Disks(ds[1..]) + [d.disk]
  {
    ChainSnoc(L, lh, ds, |lh| + 1, d);
  }

  lemma HeadSnoc(L: Layout, lh: seq<Word>, ds: seq<Dev>, k: nat, hdr: seq<Word>, d: Dev)
    requires Chain(L, lh, ds, k) && DevOk(L, ds[|ds| - 1], lh)
    requires (k + |ds| - 1 == |lh| && hdr == lh) || (k + |ds| - 1 == 2 * |lh| + 1 && hdr == [])
    requires HeadWrite(L, ds[|ds| - 1], hdr, d)
    ensures Chain(L, lh, ds + [d], k)
    ensures Disks((ds + [d])[1..]) == Disks(ds[1..]) + [d.disk]
  {
    ChainSnoc(L, lh, ds, k, d);
  }

  // ---- Recovery's writes on a cold cache are the one-shot recovery ----

  ghost predicate Clean(d: Dev) {
    forall b | b in d.cache :: b < |d.disk| && d.cache[b] == Buf(d.disk[b], false)
  }

  lemma CleanCopy(d: Dev, to: nat, from: nat)
    requires Clean(d) && to < |d.disk| && from < |d.disk|
    ensures Clean(d.Copy(to, from)) && d.Copy(to, from).disk == d.disk[to := d.disk[from]]
  {
  }

  lemma HomeFollows(L: Layout, lh: seq<Word>, ds: seq<Dev>, i: nat)
    requires Chain(L, lh, ds, |lh| + 1) && i < |lh| && i + 1 < |ds|
    ensures DevOk(L, ds[i], lh) && ds[i + 1] == ds[i].Copy(lh[i], L.start + 1 + i)
  {
    assert Follows(L, lh, ds, |lh| + 1, i);
  }

  lemma {:induction false} RecoveryInstalls(L: Layout, lh: seq<Word>, ds: seq<Dev>, i: nat)
    requires Chain(L, lh, ds, |lh| + 1) && DevOk(L, ds[0], lh) && Clean(ds[0])
    requires i < |ds| && i <= |lh|
    ensures Clean(ds[i]) && ds[i].disk == Install(L, ds[0].disk, lh, i)
  {
    hide WriteStep, Follows, Dev.Copy, Chain, Clean, Install, GoodList;
    if i == 0 {
      InstallNone(L, ds[0].disk, lh);
    } else {
      var j := i - 1;
      RecoveryInstalls(L, lh, ds, j);
      HomeFollows(L, lh, ds, j);
      InstallStep(L, lh, ds[0].disk, ds[j], ds[j + 1], j);
    }
  }

  lemma InstallStep(L: Layout, lh: seq<Word>, d: Disk, e: Dev, f: Dev, j: nat)
    requires L.Ok() && GoodList(L, lh) && |d| == L.nblocks && j < |lh|
    requires Clean(e) && e.disk == Install(L, d, lh, j) && f == e.Copy(lh[j], L.start + 1 + j)
    ensures Clean(f) && f.disk == Install(L, d, lh, j + 1)
  {
    hide Dev.Copy, Clean;
    InstallNext(L, d, lh, j);
    CleanCopy(e, lh[j], L.start + 1 + j);
  }

  lemma InstallNone(L: Layout, d: Disk, lh: seq<Word>)
    requires L.Ok() && GoodList(L, lh) && |d| == L.nblocks
    ensures Install(L, d, lh, 0) == d
  {
  }

  lemma InstallNext(L: Layout, d: Disk, lh: seq<Word>, i: nat)
    requires L.Ok() && GoodList(L, lh) && |d| == L.nblocks && i < |lh|
    ensures |Install(L, d, lh, i)| == |d| && lh[i] < |d| && L.start + 1 + i < |d|
    ensures Install(L, d, lh, i + 1) == Install(L, d, lh, i)[lh[i] := Install(L, d, lh, i)[L.start + 1 + i]]
  {
  }

  lemma RecoveryIsRecovered(L: Layout, d: Disk, lh: seq<Word>, ds: seq<Dev>)
    requires GoodDisk(L, d) && lh == HeaderOf(d[L.start])
    requires Chain(L, lh, ds, |lh| + 1) && |ds| == |lh| + 2
    requires Clean(ds[0]) && ds[0].disk == d
    ensures ds[|lh| + 1].disk == Recovered(L, d)
  {
    RecoveryInstalls(L, lh, ds, |lh|);
    var e := ds[|lh|];
    assert Follows(L, lh, ds, |lh| + 1, |lh|);
    assert e.View(L.start) == e.disk[L.start];
  }

  class Log {
    const L: Layout
    var disk: Disk
    var cache: map<nat, Buf>
    var n: nat
    const block: array<Word>
    var outstanding: nat
    var committing: bool
    // Every image that the disk has had.
    ghost var images: seq<Disk>

    ghost predicate Valid()
      reads this, block
    {
      && block.Length == LOGSIZE
      && n <= LOGSIZE
      && DevOk(L, Now(), Logged())
    }

    ghost function Now(): Dev
      reads this
    {
      Dev(disk, cache)
    }

    ghost function Logged(): seq<Word>
      reads this, block
      requires n <= block.Length
    {
      block[..n]
    }

    method Bread(b: nat) returns (data: Block)
      requires b < |disk|
      modifies this`cache
      ensures Now() == old(Now()).Load(b) && data == old(Now()).View(b)
    {
      if b !in cache { cache := cache[b := Buf(disk[b], false)]; }
      data := cache[b].data;
    }

    method Bwrite(b: nat, data: Block)
      requires b < |disk|
      modifies this`disk, this`cache, this`images
      ensures Now() == old(Now()).Put(b, data)
      ensures images == old(images) + [disk]
    {
      disk, cache := disk[b := data], cache[b := Buf(data, false)];
      images := images + [disk];
    }

    // One round of write_log(): a block's buffer goes to its log slot.
    method LogBlock(tail: nat)
      requires Valid() && tail < n
      modifies this`disk, this`cache, this`images
      ensures Valid() && Now() == old(Now()).Copy(L.start + 1 + tail, Logged()[tail])
      ensures images == old(images) + [disk]
    {
      var to := Bread(L.start + tail + 1);
      var from := Bread(block[tail]);
      Bwrite(L.start + tail + 1, from);
    }

    // One round of install_trans(): a log slot goes to its home block.
    method InstallBlock(tail: nat)
      requires Valid() && tail < n
      modifies this`disk, this`cache, this`images
      ensures Valid() && Now() == old(Now()).Copy(Logged()[tail], L.start + 1 + tail)
      ensures images == old(images) + [disk]
    {
      var lbuf := Bread(L.start + tail + 1);
      var dbuf := Bread(block[tail]);
      Bwrite(block[tail], lbuf);
    }

    method WriteLog() returns (ghost ds: seq<Dev>)
      requires Valid()
      modifies this`disk, this`cache, this`images
      ensures Valid()
      ensures |ds| == n + 1 && ds[0] == old(Now()) && ds[n] == Now()
      ensures Chain(L, Logged(), ds, 0)
      ensures images == old(images) + Disks(ds[1..])
    {
      hide WriteStep, Follows, Dev.Copy;
      ds := [Now()];
      var tail := 0;
      while tail < n
        invariant Valid() && tail <= n
        invariant |ds| == tail + 1 && ds[0] == old(Now()) && ds[tail] == Now()
        invariant Chain(L, Logged(), ds, 0)
        invariant images == old(images) + Disks(ds[1..])
      {
        LogBlock(tail);
        SlotSnoc(L, Logged(), ds, Now());
        ds := ds + [Now()];
        tail := tail + 1;
      }
    }

    // Lay the in-memory header over the header block's bytes.
    method FillHeader(buf: Block) returns (hb: Block)
      requires n <= LOGSIZE <= block.Length
      ensures hb == PutHeader(buf, Logged())
      ensures WordAt(hb, 0) == n && forall i | 0 <= i < n :: WordAt(hb, 1 + i) == block[i]
      ensures forall j | n < j < 128 :: WordAt(hb, j) == WordAt(buf, j)
    {
      hide SetWord;
      hb := SetWord(buf, 0, n);
      var i := 0;
      while i < n
        invariant i <= n && hb == PutEntries(SetWord(buf, 0, n), block[..i])
      {
        assert block[..i + 1] == block[..i] + [block[i]];
        hb := SetWord(hb, 1 + i, block[i]);
        i := i + 1;
      }
    }

    method WriteHead()
      requires Valid()
      modifies this`disk, this`cache, this`images
      ensures Valid() && images == old(images) + [disk]
      ensures HeadWrite(L, old(Now()), Logged(), Now())
    {
      var buf := Bread(L.start);
      buf := FillHeader(buf);
      Bwrite(L.start, buf);
    }

    method InstallTrans() returns (ghost ds: seq<Dev>)
      requires Valid()
      modifies this`disk, this`cache, this`images
      ensures Valid()
      ensures |ds| == n + 1 && ds[0] == old(Now()) && ds[n] == Now()
      ensures Chain(L, Logged(), ds, n + 1)
      ensures images == old(images) + Disks(ds[1..])
    {
      hide WriteStep, Follows, Dev.Copy;
      ds := [Now()];
      var tail := 0;
      while tail < n
        invariant Valid() && tail <= n
        invariant |ds| == tail + 1 && ds[0] == old(Now()) && ds[tail] == Now()
        invariant Chain(L, Logged(), ds, n + 1)
        invariant images == old(images) + Disks(ds[1..])
      {
        InstallBlock(tail);
        HomeSnoc(L, Logged(), ds, Now());
        ds := ds + [Now()];
        tail := tail + 1;
      }
    }

    // The first half of commit(): write_log() and write_head().
    method LogAndMark() returns (ghost ds: seq<Dev>)
      requires Valid()
      modifies this`disk, this`cache, this`images
      ensures Valid()
      ensures |ds| == n + 2 && ds[0] == old(Now()) && ds[n + 1] == Now()
      ensures Chain(L, Logged(), ds, 0)
      ensures images == old(images) + Disks(ds[1..])
    {
      ds := WriteLog();
      WriteHead();
      HeadSnoc(L, Logged(), ds, 0, Logged(), Now());
      ds := ds + [Now()];
    }

    // The second half, also of recovery: install_trans(), clear the header.
    method InstallAndClear() returns (ghost ds: seq<Dev>)
      requires Valid()
      modifies this`disk, this`cache, this`images, this`n
      ensures Valid() && n == 0
      ensures |ds| == old(n) + 2 && ds[0] == old(Now()) && ds[old(n) + 1] == Now()
      ensures Chain(L, old(Logged()), ds, old(n) + 1)
      ensures images == old(images) + Disks(ds[1..])
    {
      ghost var lh := Logged();
      ds := InstallTrans();
      n := 0;
      assert Logged() == [];
      WriteHead();
      HeadSnoc(L, lh, ds, |lh| + 1, [], Now());
      ds := ds + [Now()];
    }

    // The block writes are exactly those of LogFormat.WriteStep, in order.
    method Commit() returns (ghost ds: seq<Dev>)
      requires Valid()
      modifies this`disk, this`cache, this`images, this`n
      ensures Valid() && n == 0
      ensures ds != [] && ds[0] == old(Now()) && ds[|ds| - 1] == Now()
      ensures |ds| == if old(n) == 0 then 1 else 2 * old(n) + 3
      ensures Chain(L, old(Logged()), ds, 0)
      ensures images == old(images) + Disks(ds[1..])
    {
      ds := [Now()];
      if n > 0 {
        ds := LogAndMark();
        ghost var es := InstallAndClear();
        ChainJoin(L, old(Logged()), ds, 0, es);
        ds := ds + es[1..];
      }
    }

    method ReadHead()
      requires Valid() && GoodDisk(L, disk) && Now().View(L.start) == disk[L.start]
      modifies this`cache, this`n, block
      ensures Valid() && Now() == old(Now()).Load(L.start)
      ensures Logged() == HeaderOf(disk[L.start])
      ensures n == WordAt(disk[L.start], 0) && forall i | 0 <= i < n :: block[i] == WordAt(disk[L.start], 1 + i)
    {
      var buf := Bread(L.start);
      var i := 0;
      while i < WordAt(buf, 0)
        invariant i <= WordAt(buf, 0) && Now() == old(Now()).Load(L.start)
        invariant forall j | 0 <= j < i :: block[j] == WordAt(buf, 1 + j)
      {
        block[i] := WordAt(buf, 1 + i);
        i := i + 1;
      }
      n := WordAt(buf, 0);
      assert Logged() == HeaderOf(disk[L.start]);
    }

    // initlog(): recover a disk that a crash may have left.
    method RecoverFromLog() returns (ghost ds: seq<Dev>)
      requires Valid() && GoodDisk(L, disk) && cache == map[]
      modifies this`disk, this`cache, this`images, this`n, block
      ensures Valid() && n == 0 && disk == Recovered(L, old(disk))
      ensures var lh := HeaderOf(old(disk)[L.start]);
              && |ds| == |lh| + 2 && ds[0].disk == old(disk)
              && Chain(L, lh, ds, |lh| + 1)
              && images == old(images) + Disks(ds[1..])
    {
      ReadHead();
      ghost var lh := Logged();
      ds := InstallAndClear();
      RecoveryIsRecovered(L, old(disk), lh, ds);
    }

    // One pass of begin_op's loop: false when the caller must sleep.
    method BeginOp() returns (entered: bool)
      requires Valid()
      modifies this`outstanding
      ensures entered <==>
                !committing && n + (old(outstanding) + 1) * MAXOPBLOCKS <= LOGSIZE
      ensures outstanding == old(outstanding) + if entered then 1 else 0
    {
      if committing {
        return false;
      } else if n + (outstanding + 1) * MAXOPBLOCKS > LOGSIZE {
        return false;
      }
      outstanding := outstanding + 1;
      return true;
    }

    // end_op with its commit: the last operation out commits.  False stands
    // for the panic.
    method EndOp() returns (ok: bool, ghost ds: seq<Dev>)
      requires Valid() && outstanding > 0
      modifies this`disk, this`cache, this`images, this`n, this`outstanding, this`committing
      ensures Valid() && outstanding == old(outstanding) - 1 && committing == old(committing)
      ensures ok <==> !old(committing)
      ensures ds != [] && ds[0] == old(Now()) && ds[|ds| - 1] == Now()
      ensures Chain(L, old(Logged()), ds, 0)
      ensures |ds| == if !ok || outstanding > 0 || old(n) == 0 then 1 else 2 * old(n) + 3
      ensures images == old(images) + Disks(ds[1..])
      ensures n == if !ok || outstanding > 0 then old(n) else 0
    {
      ds := [Now()];
      outstanding := outstanding - 1;
      if committing { return false, ds; }
      if outstanding == 0 {
        committing := true;
        ds := Commit();
        committing := false;
      }
      ok := true;
    }

    // False stands for the two panics.
    method LogWrite(b: Word, data: Block) returns (ok: bool)
      requires Valid() && b < |disk|
      modifies this`cache, this`n, block
      ensures n <= LOGSIZE && (L.Home(b) ==> Valid())
      ensures ok <==> old(n) < LOGSIZE && old(n) < L.size - 1 && outstanding >= 1
      ensures ok ==> Logged() == Note(old(Logged()), b) && Now() == old(Now()).Pin(b, data)
      ensures ok ==> Logged() == if b in old(Logged()) then old(Logged()) else old(Logged()) + [b]
      ensures ok ==> b in cache && cache[b] == Buf(data, true) && forall c | c != b :: c in cache <==> c in old(cache)
      ensures !ok ==> Logged() == old(Logged()) && Now() == old(Now())
    {
      if n >= LOGSIZE || n >= L.size - 1 { return false; }
      if outstanding < 1 { return false; }
      var i := 0;
      while i < n && block[i] != b
        invariant i <= n && b !in block[..i]
      {
        i := i + 1;
      }
      assert b in Logged() <==> i < n;
      block[i] := b;
      if i == n { n := n + 1; }
      cache := cache[b := Buf(data, true)];
      assert Logged() == Note(old(Logged()), b);
      return true;
    }
  }
}
