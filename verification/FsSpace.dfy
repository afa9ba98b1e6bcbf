// Free blocks, and when a write runs out of them.
module FsSpace {
  import opened Blocks
  import opened FsState
  import opened FsAlloc
  import opened FsContent

  // Too few blocks are free for a file of that size to reach position end.
  ghost predicate Lacking(sb: Super, bm: seq<bv8>, size: nat, end: nat)
    requires sb.size <= 8 * |bm|
  {
    FreeCount(sb, bm) < NewBlocks(BlocksFor(size), NeedBlocks(size, end))
  }

  // For a file of that size to reach position end, just the blocks it lacked
  // have been taken.
  ghost predicate Took(sb: Super, bm0: seq<bv8>, bm: seq<bv8>, size: nat, end: nat) {
    && sb.size <= 8 * |bm0| && sb.size <= 8 * |bm|
    && FreeCount(sb, bm0) == FreeCount(sb, bm) + NewBlocks(BlocksFor(size), NeedBlocks(size, end))
  }

  lemma TookNone(sb: Super, bm: seq<bv8>, size: nat, off: nat)
    requires sb.size <= 8 * |bm| && off <= size
    ensures Took(sb, bm, bm, size, off)
  {
    BlocksGrow(off, size);
  }

  lemma NewBlocksAdd(nb0: nat, nb: nat, nb': nat)
    requires nb0 <= nb <= nb'
    ensures NewBlocks(nb0, nb') == NewBlocks(nb0, nb) + NewBlocks(nb, nb')
  {
  }

  // A round of writei() allocates.
  lemma TookRound(sb: Super, bm0: seq<bv8>, bm: seq<bv8>, bm': seq<bv8>, size: nat, end: nat, end': nat)
    requires Took(sb, bm0, bm, size, end) && sb.size <= 8 * |bm'|
    requires NeedBlocks(size, end) <= NeedBlocks(size, end')
    requires FreeCount(sb, bm) == FreeCount(sb, bm') + NewBlocks(NeedBlocks(size, end), NeedBlocks(size, end'))
    ensures Took(sb, bm0, bm', size, end')
  {
    hide FreeCount, NewBlocks, BlocksFor;
    NewBlocksAdd(BlocksFor(size), NeedBlocks(size, end), NeedBlocks(size, end'));
  }

  // A round that needs a block past the end, and cannot have it.
  lemma LackingRound(sb: Super, bm0: seq<bv8>, bm: seq<bv8>, size: nat, end: nat, end': nat)
    requires Took(sb, bm0, bm, size, end) && end < end' && end / BSIZE == NeedBlocks(size, end)
    requires FreeCount(sb, bm) < NewBlocks(NeedBlocks(size, end), NeedBlocks(size, end) + 1)
    ensures Lacking(sb, bm0, size, end')
  {
    hide FreeCount;
    BlocksForIs(end', NeedBlocks(size, end));
  }

  lemma TookIsEnough(sb: Super, bm0: seq<bv8>, bm: seq<bv8>, size: nat, end: nat)
    requires Took(sb, bm0, bm, size, end)
    ensures !Lacking(sb, bm0, size, end)
  {
  }

  // ---- filewrite(), chunk after chunk ----

  // The size of a file of that size once position end is written.
  function Reached(size: nat, end: nat): nat {
    if end > size then end else size
  }

  lemma ReachedNeeds(size: nat, end: nat, end': nat)
    requires end <= end'
    ensures BlocksFor(Reached(size, end)) == NeedBlocks(size, end)
    ensures NeedBlocks(Reached(size, end), end') == NeedBlocks(size, end')
    ensures NeedBlocks(size, end) <= NeedBlocks(size, end')
  {
    BlocksGrow(end, end');
    if end > size { BlocksGrow(size, end); } else { BlocksGrow(end, size); }
  }

  lemma TookChunk(sb: Super, bm0: seq<bv8>, bm: seq<bv8>, bm': seq<bv8>, size: nat, end: nat, end': nat)
    requires Took(sb, bm0, bm, size, end) && Took(sb, bm, bm', Reached(size, end), end') && end <= end'
    ensures Took(sb, bm0, bm', size, end')
  {
    hide FreeCount, NewBlocks, BlocksFor, NeedBlocks, Reached;
    ReachedNeeds(size, end, end');
    TookRound(sb, bm0, bm, bm', size, end, end');
  }

  lemma LackingChunk(sb: Super, bm0: seq<bv8>, bm: seq<bv8>, size: nat, end: nat, end': nat, last: nat)
    requires Took(sb, bm0, bm, size, end) && Lacking(sb, bm, Reached(size, end), end') && end <= end' <= last
    ensures Lacking(sb, bm0, size, last)
  {
    hide FreeCount, BlocksFor, NeedBlocks, Reached;
    ReachedNeeds(size, end, end');
    ReachedNeeds(size, end', last);
  }

  // What filewrite() writes at most in one operation.
  const CHUNK: nat := 1536

  // How many of n bytes get into a file, from off on: all that fit under
  // MAXFILE blocks, in whole chunks if not all do.
  function Fitting(off: nat, n: nat): (w: nat)
    requires off <= MAXFILE * BSIZE
  {
    if off + n <= MAXFILE * BSIZE then n else (MAXFILE * BSIZE - off) / CHUNK * CHUNK
  }

  lemma FittingIs(off: nat, n: nat)
    requires off <= MAXFILE * BSIZE
    ensures var w := Fitting(off, n);
            w <= n && off + w <= MAXFILE * BSIZE && (w < n ==> w % CHUNK == 0 && off + w + CHUNK > MAXFILE * BSIZE)
  {
  }

  lemma FittingNumbers(off: nat, n: nat)
    ensures off <= 71680 ==> Fitting(off, n) == if off + n <= 71680 then n else (71680 - off) / 1536 * 1536
  {
  }

  // The chunks that n bytes are written in.
  function Chunks(n: nat): nat {
    (n + CHUNK - 1) / CHUNK
  }

  lemma ChunksOf(n: nat)
    ensures Chunks(n) == (n + 1535) / 1536 && Chunks(0) == 0
  {
  }

  // After w bytes comes a chunk of m, or no more.
  lemma NextChunk(off: nat, n: nat, w: nat, m: nat)
    requires off + w <= MAXFILE * BSIZE && w < n && w % CHUNK == 0
    requires m == if n - w > CHUNK then CHUNK else n - w
    ensures off + w + m > MAXFILE * BSIZE ==> w == Fitting(off, n) && off + n > MAXFILE * BSIZE
    ensures off + w + m <= MAXFILE * BSIZE ==>
              w + m <= Fitting(off, n) && (w + m < n ==> (w + m) % CHUNK == 0)
    ensures Chunks(w + m) == Chunks(w) + 1
  {
    FittingIs(off, n);
    var q := w / CHUNK;
    assert w == CHUNK * q;
  }

  // The first w bytes of src are in file i from off on, and the blocks this
  // took are no longer free.
  ghost predicate Chunked(sb: Super, bm0: seq<bv8>, blocks0: seq<Block>, inodes0: seq<Inode>,
                          bm: seq<bv8>, blocks: seq<Block>, inodes: seq<Inode>,
                          i: nat, src: seq<Byte>, off: nat, w: nat)
    requires InodesOk(inodes0, |blocks0|) && InodesOk(inodes, |blocks|)
    requires i < |inodes| == |inodes0| && off <= inodes0[i].size && w <= |src|
  {
    && inodes[i].size == Reached(inodes0[i].size, off + w) && w <= Fitting(off, |src|)
    && SameButSpliced(blocks0, inodes0, blocks, inodes, i, src[..w], off)
    && Took(sb, bm0, bm, inodes0[i].size, off + w)
  }

  lemma ChunkedStart(sb: Super, bm: seq<bv8>, blocks: seq<Block>, inodes: seq<Inode>,
                     i: nat, src: seq<Byte>, off: nat)
    requires InodesOk(inodes, |blocks|) && i < |inodes| && off <= inodes[i].size && sb.size <= 8 * |bm|
    ensures Chunked(sb, bm, blocks, inodes, bm, blocks, inodes, i, src, off, 0)
  {
    hide Content, Rows, FreeCount;
    TookNone(sb, bm, inodes[i].size, off);
    FittingIs(off, |src|);
    var was := FileBytes(blocks, inodes, i);
    assert Splice(was, off, src[..0]) == was;
  }

  lemma ChunkedNext(sb: Super, bm0: seq<bv8>, blocks0: seq<Block>, inodes0: seq<Inode>,
                    bm: seq<bv8>, blocks: seq<Block>, inodes: seq<Inode>,
                    bm': seq<bv8>, blocks': seq<Block>, inodes': seq<Inode>,
                    i: nat, src: seq<Byte>, off: nat, w: nat, m: nat, logged: set<nat>)
    requires InodesOk(inodes0, |blocks0|) && InodesOk(inodes, |blocks|) && InodesOk(inodes', |blocks'|)
    requires i < |inodes| == |inodes0| == |inodes'| && off <= inodes0[i].size
    requires w + m <= |src| && w + m <= Fitting(off, |src|)
    requires Chunked(sb, bm0, blocks0, inodes0, bm, blocks, inodes, i, src, off, w)
    requires off + w <= inodes[i].size
    requires Written(sb, blocks, inodes, {}, blocks', inodes', logged, i, src[w..w + m], off + w)
    requires Took(sb, bm, bm', inodes[i].size, off + w + m)
    ensures Chunked(sb, bm0, blocks0, inodes0, bm', blocks', inodes', i, src, off, w + m)
  {
    hide SameButSpliced, Took, AllLogged, LogBound, Rows;
    TookChunk(sb, bm0, bm, bm', inodes0[i].size, off + w, off + w + m);
    SplicedTwice(blocks0, inodes0, blocks, inodes, blocks', inodes', i, src[..w], src[w..w + m], off);
    assert src[..w] + src[w..w + m] == src[..w + m];
  }

  lemma ChunkedFacts(sb: Super, bm0: seq<bv8>, blocks0: seq<Block>, inodes0: seq<Inode>,
                     bm: seq<bv8>, blocks: seq<Block>, inodes: seq<Inode>,
                     i: nat, src: seq<Byte>, off: nat, w: nat)
    requires InodesOk(inodes0, |blocks0|) && InodesOk(inodes, |blocks|)
    requires i < |inodes| == |inodes0| && off <= inodes0[i].size && w <= |src|
    requires Chunked(sb, bm0, blocks0, inodes0, bm, blocks, inodes, i, src, off, w)
    ensures inodes[i].size == Reached(inodes0[i].size, off + w) && w <= Fitting(off, |src|)
    ensures SameButSpliced(blocks0, inodes0, blocks, inodes, i, src[..w], off)
    ensures sb.size <= 8 * |bm0| && !Lacking(sb, bm0, inodes0[i].size, off + w)
  {
    hide SameButSpliced;
  }

  // The next chunk finds too few free blocks.
  lemma ChunkedLacks(sb: Super, bm0: seq<bv8>, blocks0: seq<Block>, inodes0: seq<Inode>,
                     bm: seq<bv8>, blocks: seq<Block>, inodes: seq<Inode>,
                     i: nat, src: seq<Byte>, off: nat, w: nat, m: nat)
    requires InodesOk(inodes0, |blocks0|) && InodesOk(inodes, |blocks|) && sb.size <= 8 * |bm0| && sb.size <= 8 * |bm|
    requires i < |inodes| == |inodes0| && off <= inodes0[i].size && w <= |src| && w + m <= Fitting(off, |src|)
    requires Chunked(sb, bm0, blocks0, inodes0, bm, blocks, inodes, i, src, off, w)
    requires Lacking(sb, bm, inodes[i].size, off + w + m)
    ensures Lacking(sb, bm0, inodes0[i].size, off + Fitting(off, |src|))
  {
    hide SameButSpliced, Took, Lacking;
    LackingChunk(sb, bm0, bm, inodes0[i].size, off + w, off + w + m, off + Fitting(off, |src|));
  }

  lemma WrittenFacts(sb: Super, blocks0: seq<Block>, inodes0: seq<Inode>,
                     blocks: seq<Block>, inodes: seq<Inode>, logged: set<nat>, i: nat, src: seq<Byte>, off: nat)
    requires InodesOk(inodes0, |blocks0|) && i < |inodes0| && off <= inodes0[i].size
    requires InodesOk(inodes, |blocks|) && |inodes| == |inodes0|
    requires Written(sb, blocks0, inodes0, {}, blocks, inodes, logged, i, src, off)
    ensures inodes[i].typ == inodes0[i].typ && |logged| <= LogBound(inodes0[i].size, off, |src|)
  {
    hide SameButSpliced, AllLogged, LogBound, Rows;
    assert logged - {} == logged;
  }

  lemma FilledAll(sb: Super, bm0: seq<bv8>, blocks0: seq<Block>, inodes0: seq<Inode>,
                  bm: seq<bv8>, blocks: seq<Block>, inodes: seq<Inode>, i: nat, src: seq<Byte>, off: nat)
    requires InodesOk(inodes0, |blocks0|) && InodesOk(inodes, |blocks|)
    requires i < |inodes| == |inodes0| && off <= inodes0[i].size
    requires Chunked(sb, bm0, blocks0, inodes0, bm, blocks, inodes, i, src, off, |src|)
    ensures Fitting(off, |src|) == |src| && off + |src| <= MAXFILE * BSIZE
    ensures SameButSpliced(blocks0, inodes0, blocks, inodes, i, src[..|src|], off)
    ensures sb.size <= 8 * |bm0| && !Lacking(sb, bm0, inodes0[i].size, off + |src|)
  {
    hide SameButSpliced;
    ChunkedFacts(sb, bm0, blocks0, inodes0, bm, blocks, inodes, i, src, off, |src|);
    FittingIs(off, |src|);
  }
}
