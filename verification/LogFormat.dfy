// The on-disk log (log.c): its layout, its header block, and the block
// writes of commit() and recover_from_log(), one at a time.
module LogFormat {
  import opened Blocks

  const MAXOPBLOCKS: nat := 10
  const LOGSIZE: nat := 30

  type Disk = seq<Block>

  // The log occupies blocks [start, start + size): the header, then size - 1
  // slots.  Every other block is a home block.
  datatype Layout = Layout(start: nat, size: nat, nblocks: nat) {
    predicate Ok() {
      1 <= size && start + size <= nblocks < 0x8000_0000
    }

    predicate Home(b: nat) {
      b < nblocks && !(start <= b < start + size)
    }
  }

  ghost predicate Distinct<T>(s: seq<T>) {
    forall i, j | 0 <= i < j < |s| :: s[i] != s[j]
  }

  // What log_write's guards make true of the list of logged block numbers.
  ghost predicate GoodList(L: Layout, lh: seq<Word>) {
    && |lh| <= LOGSIZE
    && |lh| < L.size
    && Distinct(lh)
    && forall i | 0 <= i < |lh| :: L.Home(lh[i])
  }

  // ---- The header block: word 0 is n, words 1..n the block numbers ----

  predicate HeaderOk(b: Block) {
    WordAt(b, 0) <= LOGSIZE
  }

  function HeaderOf(b: Block): (lh: seq<Word>)
    requires HeaderOk(b)
  {
    seq(WordAt(b, 0), i requires 0 <= i < WordAt(b, 0) => WordAt(b, 1 + i))
  }

  function PutEntries(b: Block, lh: seq<Word>): (r: Block)
    requires |lh| <= LOGSIZE
    ensures forall j | 0 <= j < NWORDS ::
              WordAt(r, j) == if 1 <= j <= |lh| then lh[j - 1] else WordAt(b, j)
  {
    if lh == [] then b
    else SetWord(PutEntries(b, lh[..|lh| - 1]), |lh|, lh[|lh| - 1])
  }

  // write_head() overwrites n and the first n entries, and keeps the rest.
  function PutHeader(b: Block, lh: seq<Word>): (r: Block)
    requires |lh| <= LOGSIZE
    ensures HeaderOk(r) && HeaderOf(r) == lh
  {
    PutEntries(SetWord(b, 0, |lh|), lh)
  }

  ghost predicate GoodDisk(L: Layout, d: Disk) {
    && L.Ok()
    && |d| == L.nblocks
    && HeaderOk(d[L.start])
    && GoodList(L, HeaderOf(d[L.start]))
  }

  // ---- The device as log.c sees it: the disk and the buffer cache ----

  datatype Buf = Buf(data: Block, dirty: bool)

  datatype Dev = Dev(disk: Disk, cache: map<nat, Buf>) {
    // bread(): the contents of block b.
    function View(b: nat): Block
      requires b < |disk|
    {
      if b in cache then cache[b].data else disk[b]
    }

    // bread(): the effect on the cache.
    function Load(b: nat): Dev
      requires b < |disk|
    {
      if b in cache then this else this.(cache := cache[b := Buf(disk[b], false)])
    }

    // Fill block b's buffer with data, and bwrite() it.
    function Put(b: nat, data: Block): Dev
      requires b < |disk|
    {
      Dev(disk[b := data], cache[b := Buf(data, false)])
    }

    // memmove() the buffer of `from` into that of `to`, and bwrite() that.
    function Copy(to: nat, from: nat): Dev
      requires to < |disk| && from < |disk|
    {
      Load(from).Load(to).Put(to, View(from))
    }

    // Modify block b's buffer and log_write() it, which pins it.
    function Pin(b: nat, data: Block): Dev {
      this.(cache := cache[b := Buf(data, true)])
    }
  }

  ghost predicate DevOk(L: Layout, d: Dev, lh: seq<Word>) {
    L.Ok() && |d.disk| == L.nblocks && GoodList(L, lh)
  }

  // log_write() notes a block once.
  function Note(lh: seq<Word>, b: Word): seq<Word> {
    if b in lh then lh else lh + [b]
  }

  // The k-th block write of commit(), for the logged blocks lh: n log slots,
  // the header, n home blocks, the empty header.  recover_from_log() does the
  // writes from n + 1 on.
  ghost function WriteStep(L: Layout, d: Dev, lh: seq<Word>, k: nat): Dev
    requires DevOk(L, d, lh) && k < 2 * |lh| + 2
  {
    var n := |lh|;
    if k < n then d.Copy(L.start + 1 + k, lh[k])
    else if k == n then d.Put(L.start, PutHeader(d.View(L.start), lh))
    else if k <= 2 * n then var i := k - n - 1; d.Copy(lh[i], L.start + 1 + i)
    else d.Put(L.start, PutHeader(d.View(L.start), []))
  }

  // ---- One uninterrupted recovery, on the disk alone ----

  function Install(L: Layout, d: Disk, lh: seq<Word>, k: nat): (r: Disk)
    requires L.Ok() && |d| == L.nblocks && GoodList(L, lh) && k <= |lh|
    ensures |r| == |d|
    ensures forall b | 0 <= b < |d| && !L.Home(b) :: r[b] == d[b]
    ensures forall j | 0 <= j < k :: r[lh[j]] == d[L.start + 1 + j]
    ensures forall b | 0 <= b < |d| && b !in lh[..k] :: r[b] == d[b]
  {
    if k == 0 then d else
      var r := Install(L, d, lh, k - 1);
      assert lh[..k] == lh[..k - 1] + [lh[k - 1]];
      r[lh[k - 1] := r[L.start + k]]
  }

  function Recovered(L: Layout, d: Disk): (r: Disk)
    requires GoodDisk(L, d)
    ensures |r| == |d|
  {
    var lh := HeaderOf(d[L.start]);
    var r := Install(L, d, lh, |lh|);
    r[L.start := PutHeader(r[L.start], [])]
  }

  // Two disks hold the same file system: they agree outside the log.
  ghost predicate SameHome(L: Layout, d: Disk, e: Disk) {
    && |d| == |e|
    && forall b | 0 <= b < |d| && L.Home(b) :: d[b] == e[b]
  }
}
