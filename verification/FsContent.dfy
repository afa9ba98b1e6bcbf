// How allocating and writing blocks shows in the bytes of files.
module FsContent {
  import opened Blocks
  import opened Bitmap
  import opened FsState
  import opened FsAlloc

  // Block bn of a file can only be had with a new indirect block.
  ghost predicate FirstIndirect(row: Row, bn: nat)
    requires |row| == NSLOTS
  {
    bn >= NDIRECT && row[NDIRECT] == 0
  }

  // The blocks that bmap() must find for block bn, which is not there.
  ghost function Fresh(row: Row, bn: nat): nat
    requires |row| == NSLOTS
  {
    if FirstIndirect(row, bn) then 2 else 1
  }

  // File i got block bn, at addr, and if need be an indirect block; nothing
  // else that any file held moved.
  ghost predicate Grown(sb: Super, bm: seq<bv8>, blocks: seq<Block>, inodes: seq<Inode>,
                        bm': seq<bv8>, blocks': seq<Block>, inodes': seq<Inode>,
                        i: nat, bn: nat, addr: nat)
    requires Core(sb, bm, blocks, inodes) && i < |inodes| && bn < MAXFILE
  {
    && Core(sb, bm', blocks', inodes') && |inodes'| == |inodes| && |bm'| == |bm|
    && inodes' == inodes[i := inodes[i].(addrs := inodes'[i].addrs)]
    && var R, R' := Rows(blocks, inodes), Rows(blocks', inodes');
       var row, row' := R[i], R'[i];
       && R' == R[i := row']
       && row' == (if FirstIndirect(row, bn) then row[NDIRECT := row'[NDIRECT]] else row)[Slot(bn) := addr]
       && 0 < addr < sb.size && !Bit(bm, addr) && blocks'[addr] == ZeroBlock()
       && (FirstIndirect(row, bn) ==> 0 < row'[NDIRECT] < sb.size && !Bit(bm, row'[NDIRECT]))
       && (forall b | 0 <= b < sb.size && Bit(bm, b) && b != row'[NDIRECT] :: blocks'[b] == blocks[b])
       && (forall b | 0 <= b < sb.size ::
             Bit(bm', b) <==> Bit(bm, b) || b == addr || (FirstIndirect(row, bn) && b == row'[NDIRECT]))
       && FreeCount(sb, bm) == FreeCount(sb, bm') + Fresh(row, bn)
  }

  // In a file of nb blocks without holes.
  lemma PastEnd(row: Row, nb: nat, bn: nat)
    requires |row| == NSLOTS && Alloc(row, nb) && bn <= nb && bn < MAXFILE
    ensures row[Slot(bn)] != 0 <==> bn < nb
    ensures FirstIndirect(row, bn) <==> bn == nb == NDIRECT
    ensures bn == nb ==> Fresh(row, bn) == NewBlocks(nb, nb + 1)
  {
  }

  // A file without holes that gets the block past its end has none.
  lemma GrownNoHole(sb: Super, bm: seq<bv8>, blocks: seq<Block>, inodes: seq<Inode>,
                    bm': seq<bv8>, blocks': seq<Block>, inodes': seq<Inode>, i: nat, bn: nat, addr: nat)
    requires Core(sb, bm, blocks, inodes) && i < |inodes| && bn < MAXFILE
    requires Alloc(Rows(blocks, inodes)[i], bn)
    requires Grown(sb, bm, blocks, inodes, bm', blocks', inodes', i, bn, addr)
    ensures Alloc(Rows(blocks', inodes')[i], bn + 1)
    ensures KeptRow(Rows(blocks, inodes)[i], Rows(blocks', inodes')[i])
    ensures FreeCount(sb, bm) == FreeCount(sb, bm') + NewBlocks(bn, bn + 1)
  {
    hide RowOf, Bit, Unique, Marked, MetaMarked;
    var row, row' := Rows(blocks, inodes)[i], Rows(blocks', inodes')[i];
    if bn == NDIRECT {
      AllocGrowIndirect(row, row'[NDIRECT], addr);
    } else {
      AllocGrow(row, bn, addr);
    }
  }

  // Existing bytes of every file stay.
  lemma GrownKeepsBytes(sb: Super, bm: seq<bv8>, blocks: seq<Block>, inodes: seq<Inode>,
                        bm': seq<bv8>, blocks': seq<Block>, inodes': seq<Inode>,
                        i: nat, bn: nat, addr: nat, j: nat, k: nat)
    requires Core(sb, bm, blocks, inodes) && i < |inodes| && bn < MAXFILE
    requires Grown(sb, bm, blocks, inodes, bm', blocks', inodes', i, bn, addr)
    requires j < |inodes| && k / BSIZE < MAXFILE
    requires Rows(blocks, inodes)[j][Slot(k / BSIZE)] != 0 && Rows(blocks, inodes)[i][Slot(bn)] == 0
    ensures ByteAt(blocks', Rows(blocks', inodes')[j], k) == ByteAt(blocks, Rows(blocks, inodes)[j], k)
  {
    hide RowOf, Bit;
    var R, R', s := Rows(blocks, inodes), Rows(blocks', inodes'), Slot(k / BSIZE);
    assert Bit(bm, R[j][s]) && R[j][s] < sb.size;
    assert R[i][NDIRECT] != R[j][s];
    assert R'[i][NDIRECT] != R[j][s];
  }

  // Of the bytes of all files, only those of block bn of file i change, to x.
  ghost predicate OnlyBlockChanged(R: seq<Row>, blocks: seq<Block>, blocks': seq<Block>,
                                   i: nat, bn: nat, x: Block)
    requires RowsOk(R)
  {
    forall j, k {:trigger ByteAt(blocks', R[j], k)} | 0 <= j < |R| && 0 <= k < MAXFILE * BSIZE ::
      ByteAt(blocks', R[j], k) ==
        if j == i && k / BSIZE == bn then x.bytes[k % BSIZE] else ByteAt(blocks, R[j], k)
  }

  // Writing data block bn of file i: no reference moves, and only the bytes
  // of that block of that file change.
  lemma DataWritten(sb: Super, bm: seq<bv8>, blocks: seq<Block>, inodes: seq<Inode>,
                    i: nat, bn: nat, x: Block)
    requires Core(sb, bm, blocks, inodes) && i < |inodes| && bn < MAXFILE
    requires Rows(blocks, inodes)[i][Slot(bn)] != 0
    ensures Rows(blocks, inodes)[i][Slot(bn)] < |blocks|
    ensures var R, b := Rows(blocks, inodes), Rows(blocks, inodes)[i][Slot(bn)];
            Core(sb, bm, blocks[b := x], inodes) && Rows(blocks[b := x], inodes) == R
    ensures var R, b := Rows(blocks, inodes), Rows(blocks, inodes)[i][Slot(bn)];
            OnlyBlockChanged(R, blocks, blocks[b := x], i, bn, x)
  {
    var R := Rows(blocks, inodes);
    var b := R[i][Slot(bn)];
    forall j | 0 <= j < |inodes|
      ensures inodes[j].addrs[NDIRECT] == 0 || inodes[j].addrs[NDIRECT] != b
    {
      assert R[j][NDIRECT] == inodes[j].addrs[NDIRECT];
    }
    RowsFrame(blocks, inodes, b, x);
    assert InodesOk(inodes, |blocks[b := x]|);
    var blocks' := blocks[b := x];
    forall j, k {:trigger ByteAt(blocks', R[j], k)} | 0 <= j < |R| && 0 <= k < MAXFILE * BSIZE
      ensures ByteAt(blocks', R[j], k) ==
                if j == i && k / BSIZE == bn then x.bytes[k % BSIZE] else ByteAt(blocks, R[j], k)
    {
      var s := Slot(k / BSIZE);
      if R[j][s] == b { assert j == i && s == Slot(bn); }
    }
  }

  // m bytes within one block, read at position pos of a file.
  lemma PieceOf(blocks: seq<Block>, row: Row, pos: nat, m: nat)
    requires |row| == NSLOTS && pos / BSIZE < MAXFILE && m <= BSIZE - pos % BSIZE
    requires row[Slot(pos / BSIZE)] < |blocks|
    ensures var piece := blocks[row[Slot(pos / BSIZE)]].bytes[pos % BSIZE..pos % BSIZE + m];
            forall k {:trigger piece[k]} | 0 <= k < m ::
              (pos + k) / BSIZE == pos / BSIZE && piece[k] == ByteAt(blocks, row, pos + k)
  {
    var piece := blocks[row[Slot(pos / BSIZE)]].bytes[pos % BSIZE..pos % BSIZE + m];
    forall k {:trigger piece[k]} | 0 <= k < m
      ensures (pos + k) / BSIZE == pos / BSIZE && piece[k] == ByteAt(blocks, row, pos + k)
    {
      assert (pos + k) / BSIZE == pos / BSIZE && (pos + k) % BSIZE == pos % BSIZE + k;
    }
  }

  // The bytes [off, off + |dst|) of a file, in terms of its content.
  lemma ContentSlice(blocks: seq<Block>, row: Row, size: nat, off: nat, dst: seq<Byte>)
    requires |row| == NSLOTS && off + |dst| <= size <= MAXFILE * BSIZE
    requires forall k {:trigger dst[k]} | 0 <= k < |dst| :: dst[k] == ByteAt(blocks, row, off + k)
    ensures dst == Content(blocks, row, size)[off..off + |dst|]
  {
  }

  // ---- The block arithmetic of readi() and writei() ----

  lemma BlocksForIs(size: nat, bn: nat)
    ensures bn < BlocksFor(size) <==> bn * BSIZE < size
  {
  }

  // Where byte k of a file is: in the direct or indirect block it belongs to.
  lemma BytesOnDisk(sb: Super, bm: seq<bv8>, blocks: seq<Block>, inodes: seq<Inode>, i: nat, k: nat)
    requires Core(sb, bm, blocks, inodes) && NoHoles(Rows(blocks, inodes), inodes)
    requires i < |inodes| && k < inodes[i].size
    ensures |inodes[i].addrs| == NDIRECT + 1 && inodes[i].addrs[NDIRECT] < |blocks| && k / 512 < 140
    ensures var ino, bn := inodes[i], k / 512;
            var b := if bn < 12 then ino.addrs[bn] else WordAt(blocks[ino.addrs[12]], bn - 12);
            0 < b < |blocks| && FileBytes(blocks, inodes, i)[k] == blocks[b].bytes[k % 512]
  {
    hide WordAt, Core, RowOf;
    CoreShape(sb, bm, blocks, inodes);
    ReferenceAt(sb, bm, blocks, inodes, i, k / BSIZE);
    assert Alloc(Rows(blocks, inodes)[i], BlocksFor(inodes[i].size));
    BlocksForIs(inodes[i].size, k / BSIZE);
  }

  // The blocks a file has once bytes up to `end` are written.
  function NeedBlocks(size: nat, end: nat): nat {
    if BlocksFor(size) < BlocksFor(end) then BlocksFor(end) else BlocksFor(size)
  }

  // One round of the copying loop: m bytes at byte `at` of block bn.
  lemma RoundArithmetic(size: nat, off: nat, tot: nat, n: nat, m: nat, bn: nat, at: nat)
    requires off <= size && tot < n && off + n <= MAXFILE * BSIZE
    requires tot == 0 || (off + tot) % BSIZE == 0
    requires bn == (off + tot) / BSIZE && at == (off + tot) % BSIZE
    requires m == if n - tot < BSIZE - at then n - tot else BSIZE - at
    ensures 0 < m && tot + m <= n && at + m <= BSIZE
    ensures bn < MAXFILE && bn <= NeedBlocks(size, off + tot)
    ensures NeedBlocks(size, off + tot + m) ==
              if bn < NeedBlocks(size, off + tot) then NeedBlocks(size, off + tot) else bn + 1
    ensures tot + m == n || (off + tot + m) % BSIZE == 0
    ensures RoundsDone(off, tot + m) == RoundsDone(off, tot) + 1
  {
    hide BlocksFor;
    assert off + tot == BSIZE * bn + at;
    BlocksAt(bn, at);
    BlocksAt(bn, at + m);
    BlocksGrow(off, size);
  }

  lemma BlocksAt(bn: nat, at: nat)
    requires at <= BSIZE
    ensures BlocksFor(BSIZE * bn + at) == if at == 0 then bn else bn + 1
  {
  }

  lemma BlocksGrow(a: nat, b: nat)
    requires a <= b
    ensures BlocksFor(a) <= BlocksFor(b)
  {
  }

  // The block of the next round, and whether it is new.
  lemma RoundPlace(size: nat, off: nat, tot: nat)
    requires off <= size && off + tot < MAXFILE * BSIZE && (tot == 0 || (off + tot) % BSIZE == 0)
    ensures var bn := (off + tot) / BSIZE;
      && bn == off / BSIZE + RoundsDone(off, tot) && bn < MAXFILE && bn <= NeedBlocks(size, off + tot)
      && (bn >= BlocksFor(size) <==> bn >= NeedBlocks(size, off + tot))
  {
  }

  // Rounds after which tot bytes are written.
  function RoundsDone(off: nat, tot: nat): nat {
    if tot == 0 then 0 else BlocksFor(off + tot) - off / BSIZE
  }

  lemma NeedStart(size: nat, off: nat)
    requires off <= size
    ensures NeedBlocks(size, off) == BlocksFor(size) && RoundsDone(off, 0) == 0
  {
  }

  // ---- A write in progress ----

  // The first tot bytes of src are in file i from off on, which has nb blocks
  // now; every other byte is as it was, and no other inode has changed.
  ghost predicate Writing(sb: Super, blocks0: seq<Block>, inodes0: seq<Inode>,
                          bm: seq<bv8>, blocks: seq<Block>, inodes: seq<Inode>,
                          i: nat, src: seq<Byte>, off: nat, tot: nat, nb: nat)
    requires InodesOk(inodes0, |blocks0|) && i < |inodes0|
  {
    && Core(sb, bm, blocks, inodes) && |inodes| == |inodes0|
    && inodes == inodes0[i := inodes0[i].(addrs := inodes[i].addrs)]
    && tot <= |src| && off <= inodes[i].size && off + tot <= MAXFILE * BSIZE
    && var R0, R := Rows(blocks0, inodes0), Rows(blocks, inodes);
       && (forall j | 0 <= j < |R| && j != i :: R[j] == R0[j])
       && Alloc(R[i], nb) && NeedBlocks(inodes[i].size, off + tot) <= nb
       && OthersKept(R, inodes, blocks0, blocks, i)
       && BytesWritten(blocks0, R0[i], blocks, R[i], inodes[i].size, src, off, tot)
  }

  ghost predicate OthersKept(R: seq<Row>, inodes: seq<Inode>, blocks0: seq<Block>,
                             blocks: seq<Block>, i: nat)
    requires RowsOk(R) && |R| == |inodes| && InodesOk(inodes, |blocks|)
  {
    forall j, k {:trigger ByteAt(blocks, R[j], k)}
      | 0 <= j < |R| && j != i && 0 <= k < inodes[j].size ::
      ByteAt(blocks, R[j], k) == ByteAt(blocks0, R[j], k)
  }

  ghost predicate BytesWritten(blocks0: seq<Block>, row0: Row, blocks: seq<Block>, row: Row,
                               size: nat, src: seq<Byte>, off: nat, tot: nat)
    requires |row0| == |row| == NSLOTS && off <= size <= MAXFILE * BSIZE
    requires tot <= |src| && off + tot <= MAXFILE * BSIZE
  {
    forall k {:trigger ByteAt(blocks, row, k)} | 0 <= k < size || 0 <= k < off + tot ::
      ByteAt(blocks, row, k) ==
        if off <= k < off + tot then src[k - off] else ByteAt(blocks0, row0, k)
  }

  lemma WritingFacts(sb: Super, blocks0: seq<Block>, inodes0: seq<Inode>,
                     bm: seq<bv8>, blocks: seq<Block>, inodes: seq<Inode>,
                     i: nat, src: seq<Byte>, off: nat, tot: nat, nb: nat)
    requires InodesOk(inodes0, |blocks0|) && i < |inodes0|
    requires Writing(sb, blocks0, inodes0, bm, blocks, inodes, i, src, off, tot, nb)
    ensures Core(sb, bm, blocks, inodes) && InodesOk(inodes, |blocks|) && |inodes| == |inodes0|
    ensures inodes == inodes0[i := inodes0[i].(addrs := inodes[i].addrs)]
    ensures Alloc(Rows(blocks, inodes)[i], nb)
  {
  }

  lemma WritingStart(sb: Super, bm: seq<bv8>, blocks: seq<Block>, inodes: seq<Inode>,
                     i: nat, src: seq<Byte>, off: nat)
    requires Core(sb, bm, blocks, inodes) && i < |inodes| && off <= inodes[i].size
    requires Alloc(Rows(blocks, inodes)[i], BlocksFor(inodes[i].size))
    ensures Writing(sb, blocks, inodes, bm, blocks, inodes, i, src, off, 0, BlocksFor(inodes[i].size))
  {
  }

  // bmap() allocating in the course of a write.
  lemma WritingGrown(sb: Super, blocks0: seq<Block>, inodes0: seq<Inode>,
                     bm: seq<bv8>, blocks: seq<Block>, inodes: seq<Inode>,
                     bm': seq<bv8>, blocks': seq<Block>, inodes': seq<Inode>,
                     i: nat, src: seq<Byte>, off: nat, tot: nat, nb: nat, addr: nat)
    requires InodesOk(inodes0, |blocks0|) && i < |inodes0| && nb < MAXFILE
    requires NoHoles(Rows(blocks0, inodes0), inodes0)
    requires Writing(sb, blocks0, inodes0, bm, blocks, inodes, i, src, off, tot, nb)
    requires Grown(sb, bm, blocks, inodes, bm', blocks', inodes', i, nb, addr)
    ensures Writing(sb, blocks0, inodes0, bm', blocks', inodes', i, src, off, tot, nb + 1)
  {
    hide RowOf, Bit, ByteAt;
    GrownNoHole(sb, bm, blocks, inodes, bm', blocks', inodes', i, nb, addr);
    var R0, R, R' := Rows(blocks0, inodes0), Rows(blocks, inodes), Rows(blocks', inodes');
    forall j, k {:trigger ByteAt(blocks', R'[j], k)} | 0 <= j < |R'| && j != i && 0 <= k < inodes'[j].size
      ensures ByteAt(blocks', R'[j], k) == ByteAt(blocks0, R'[j], k)
    {
      BlocksForIs(inodes0[j].size, k / BSIZE);
      assert R[j] == R0[j] && R0[j][Slot(k / BSIZE)] != 0;
      GrownKeepsBytes(sb, bm, blocks, inodes, bm', blocks', inodes', i, nb, addr, j, k);
    }
    var size := inodes[i].size;
    forall k {:trigger ByteAt(blocks', R'[i], k)} | 0 <= k < size || 0 <= k < off + tot
      ensures ByteAt(blocks', R'[i], k) == ByteAt(blocks, R[i], k)
    {
      BlocksForIs(size, k / BSIZE);
      BlocksForIs(off + tot, k / BSIZE);
      assert R[i][Slot(k / BSIZE)] != 0;
      GrownKeepsBytes(sb, bm, blocks, inodes, bm', blocks', inodes', i, nb, addr, i, k);
    }
  }

  function Patch(b: Block, at: nat, piece: seq<Byte>): (r: Block)
    requires at + |piece| <= BSIZE
    ensures forall k | 0 <= k < BSIZE ::
              r.bytes[k] == if at <= k < at + |piece| then piece[k - at] else b.bytes[k]
  {
    Block(b.bytes[..at] + piece + b.bytes[at + |piece|..])
  }

  lemma PieceRange(pos: nat, m: nat, k: nat)
    requires m <= BSIZE - pos % BSIZE
    ensures pos <= k < pos + m <==>
              k / BSIZE == pos / BSIZE && pos % BSIZE <= k % BSIZE < pos % BSIZE + m
    ensures pos <= k < pos + m ==> k - pos == k % BSIZE - pos % BSIZE
  {
  }

  // Copying m bytes into the data block that holds position off + tot.
  lemma WritingData(sb: Super, blocks0: seq<Block>, inodes0: seq<Inode>,
                    bm: seq<bv8>, blocks: seq<Block>, inodes: seq<Inode>,
                    i: nat, src: seq<Byte>, off: nat, tot: nat, nb: nat, m: nat)
    requires InodesOk(inodes0, |blocks0|) && i < |inodes0|
    requires Writing(sb, blocks0, inodes0, bm, blocks, inodes, i, src, off, tot, nb)
    requires tot + m <= |src| && off + tot + m <= MAXFILE * BSIZE
    requires (off + tot) / BSIZE < nb && (off + tot) / BSIZE < MAXFILE
    requires m <= BSIZE - (off + tot) % BSIZE && NeedBlocks(inodes[i].size, off + tot + m) <= nb
    ensures var addr := Rows(blocks, inodes)[i][Slot((off + tot) / BSIZE)];
            && addr != 0 && addr < |blocks|
            && var x := Patch(blocks[addr], (off + tot) % BSIZE, src[tot..tot + m]);
               && Writing(sb, blocks0, inodes0, bm, blocks[addr := x], inodes, i, src, off, tot + m, nb)
               && Rows(blocks[addr := x], inodes) == Rows(blocks, inodes)
  {
    hide RowOf, Bit, ByteAt, BytesWritten, OthersKept, OnlyBlockChanged, Unique, NeedBlocks, Patch, MetaMarked;
    var R, pos := Rows(blocks, inodes), off + tot;
    var bn := pos / BSIZE;
    var addr := R[i][Slot(bn)];
    assert addr != 0 && addr < |blocks|;
    var x := Patch(blocks[addr], pos % BSIZE, src[tot..tot + m]);
    DataWritten(sb, bm, blocks, inodes, i, bn, x);
    OthersPatched(R, inodes, blocks0, blocks, blocks[addr := x], i, bn, x);
    BytesPatched(R, blocks0, Rows(blocks0, inodes0)[i], blocks, blocks[addr := x], i, inodes[i].size, src, off, tot, m);
  }

  lemma OthersPatched(R: seq<Row>, inodes: seq<Inode>, blocks0: seq<Block>, blocks: seq<Block>,
                      blocks': seq<Block>, i: nat, bn: nat, x: Block)
    requires RowsOk(R) && |R| == |inodes| && |blocks'| == |blocks| && InodesOk(inodes, |blocks|)
    requires OthersKept(R, inodes, blocks0, blocks, i) && OnlyBlockChanged(R, blocks, blocks', i, bn, x)
    ensures OthersKept(R, inodes, blocks0, blocks', i)
  {
    hide ByteAt;
  }

  lemma BytesPatched(R: seq<Row>, blocks0: seq<Block>, row0: Row, blocks: seq<Block>, blocks': seq<Block>,
                     i: nat, size: nat, src: seq<Byte>, off: nat, tot: nat, m: nat)
    requires RowsOk(R) && i < |R| && |row0| == NSLOTS && off <= size <= MAXFILE * BSIZE
    requires tot + m <= |src| && off + tot + m <= MAXFILE * BSIZE && (off + tot) / BSIZE < MAXFILE
    requires m <= BSIZE - (off + tot) % BSIZE
    requires BytesWritten(blocks0, row0, blocks, R[i], size, src, off, tot)
    requires var pos := off + tot; var addr := R[i][Slot(pos / BSIZE)];
      && addr < |blocks|
      && OnlyBlockChanged(R, blocks, blocks', i, pos / BSIZE, Patch(blocks[addr], pos % BSIZE, src[tot..tot + m]))
    ensures BytesWritten(blocks0, row0, blocks', R[i], size, src, off, tot + m)
  {
    var pos := off + tot;
    var bn, addr := pos / BSIZE, R[i][Slot(pos / BSIZE)];
    forall k {:trigger ByteAt(blocks', R[i], k)} | 0 <= k < size || 0 <= k < off + tot + m
      ensures ByteAt(blocks', R[i], k) ==
                if off <= k < off + tot + m then src[k - off] else ByteAt(blocks0, row0, k)
    {
      PieceRange(pos, m, k);
      if k / BSIZE == bn { assert ByteAt(blocks, R[i], k) == blocks[addr].bytes[k % BSIZE]; }
    }
  }

  // References that were there are still there.
  ghost predicate KeptRow(row: Row, row': Row) {
    |row| == |row'| == NSLOTS && forall s | 0 <= s < NSLOTS && row[s] != 0 :: row'[s] == row[s]
  }

  // Blocks that a file has gained were free, and blocks in use stay in use.
  ghost predicate NewWereFree(sb: Super, bm: seq<bv8>, row: Row, bm': seq<bv8>, row': Row) {
    && sb.size <= 8 * |bm| && sb.size <= 8 * |bm'| && |row| == |row'| == NSLOTS
    && (forall b | 0 <= b < sb.size && Bit(bm, b) :: Bit(bm', b))
    && (forall s | 0 <= s < NSLOTS && row[s] == 0 && row'[s] != 0 :: row'[s] < sb.size && !Bit(bm, row'[s]))
  }

  lemma GrownWasFree(sb: Super, bm: seq<bv8>, blocks: seq<Block>, inodes: seq<Inode>,
                     bm': seq<bv8>, blocks': seq<Block>, inodes': seq<Inode>, i: nat, bn: nat, addr: nat)
    requires Core(sb, bm, blocks, inodes) && i < |inodes| && bn < MAXFILE
    requires Alloc(Rows(blocks, inodes)[i], bn)
    requires Grown(sb, bm, blocks, inodes, bm', blocks', inodes', i, bn, addr)
    ensures NewWereFree(sb, bm, Rows(blocks, inodes)[i], bm', Rows(blocks', inodes')[i])
  {
    hide RowOf, Bit, Unique, Marked, MetaMarked;
  }

  lemma NewWereFreeTwice(sb: Super, bm0: seq<bv8>, row0: Row, bm1: seq<bv8>, row1: Row, bm2: seq<bv8>, row2: Row)
    requires NewWereFree(sb, bm0, row0, bm1, row1) && NewWereFree(sb, bm1, row1, bm2, row2) && KeptRow(row1, row2)
    ensures NewWereFree(sb, bm0, row0, bm2, row2)
  {
    hide Bit;
  }

  lemma NothingNew(sb: Super, bm: seq<bv8>, row: Row)
    requires sb.size <= 8 * |bm| && |row| == NSLOTS
    ensures NewWereFree(sb, bm, row, bm, row)
  {
  }

  // bmap() gave the block of position off + tot: it was there, or is new.
  ghost predicate Mapped(sb: Super, bm: seq<bv8>, blocks: seq<Block>, inodes: seq<Inode>,
                         bm': seq<bv8>, blocks': seq<Block>, inodes': seq<Inode>,
                         i: nat, bn: nat, nb: nat, addr: nat)
    requires Core(sb, bm, blocks, inodes) && i < |inodes| && bn < MAXFILE
  {
    if bn < nb then
      && bm' == bm && blocks' == blocks && inodes' == inodes
      && addr == Rows(blocks, inodes)[i][Slot(bn)]
    else Grown(sb, bm, blocks, inodes, bm', blocks', inodes', i, bn, addr)
  }

  // One round of a write: block bn of file i is patched at byte `at`.
  lemma WritingRound(sb: Super, blocks0: seq<Block>, inodes0: seq<Inode>,
                     bm: seq<bv8>, blocks: seq<Block>, inodes: seq<Inode>,
                     bm': seq<bv8>, blocks': seq<Block>, inodes': seq<Inode>,
                     i: nat, src: seq<Byte>, off: nat, tot: nat, nb: nat, nb': nat,
                     bn: nat, at: nat, m: nat, addr: nat)
    requires InodesOk(inodes0, |blocks0|) && i < |inodes0|
    requires NoHoles(Rows(blocks0, inodes0), inodes0)
    requires Writing(sb, blocks0, inodes0, bm, blocks, inodes, i, src, off, tot, nb)
    requires tot + m <= |src| && off + tot + m <= MAXFILE * BSIZE
    requires bn == (off + tot) / BSIZE && at == (off + tot) % BSIZE
    requires bn <= nb && bn < MAXFILE && at + m <= BSIZE
    requires Mapped(sb, bm, blocks, inodes, bm', blocks', inodes', i, bn, nb, addr)
    requires NeedBlocks(inodes0[i].size, off + tot + m) == nb' == if bn < nb then nb else nb + 1
    ensures addr < |blocks'| && InodesOk(inodes', |blocks'|) && |inodes'| == |inodes|
    ensures var x := Patch(blocks'[addr], at, src[tot..tot + m]);
            && Writing(sb, blocks0, inodes0, bm', blocks'[addr := x], inodes', i, src, off, tot + m, nb')
            && Rows(blocks'[addr := x], inodes') == Rows(blocks', inodes')
            && KeptRow(Rows(blocks, inodes)[i], Rows(blocks', inodes')[i])
            && NewWereFree(sb, bm, Rows(blocks, inodes)[i], bm', Rows(blocks', inodes')[i])
            && addr == Rows(blocks', inodes')[i][Slot(bn)]
            && sb.size <= 8 * |bm| && sb.size <= 8 * |bm'|
            && FreeCount(sb, bm) == FreeCount(sb, bm') + NewBlocks(nb, nb')
  {
    hide RowOf, Bit, ByteAt, NewWereFree, FreeCount;
    if bn < nb {
      WritingData(sb, blocks0, inodes0, bm', blocks', inodes', i, src, off, tot, nb, m);
      NothingNew(sb, bm, Rows(blocks, inodes)[i]);
    } else {
      GrownWasFree(sb, bm, blocks, inodes, bm', blocks', inodes', i, bn, addr);
      GrownNoHole(sb, bm, blocks, inodes, bm', blocks', inodes', i, bn, addr);
      WritingGrown(sb, blocks0, inodes0, bm, blocks, inodes, bm', blocks', inodes',
                   i, src, off, tot, nb, addr);
      WritingData(sb, blocks0, inodes0, bm', blocks', inodes', i, src, off, tot, nb + 1, m);
    }
  }

  // What a finished write means for the contents of all files.
  lemma WritingDone(sb: Super, blocks0: seq<Block>, inodes0: seq<Inode>,
                    bm: seq<bv8>, blocks: seq<Block>, inodes: seq<Inode>,
                    i: nat, src: seq<Byte>, off: nat, nb: nat, size': nat)
    requires InodesOk(inodes0, |blocks0|) && i < |inodes0|
    requires Writing(sb, blocks0, inodes0, bm, blocks, inodes, i, src, off, |src|, nb)
    requires size' == if off + |src| > inodes[i].size then off + |src| else inodes[i].size
    ensures var R0, R := Rows(blocks0, inodes0), Rows(blocks, inodes);
            && Content(blocks, R[i], size') ==
                 Splice(Content(blocks0, R0[i], inodes0[i].size), off, src)
            && forall j | 0 <= j < |R| && j != i ::
                 Content(blocks, R[j], inodes[j].size) == Content(blocks0, R0[j], inodes0[j].size)
  {
    hide RowOf, ByteAt, Core;
  }

  // Setting the size moves no reference.
  lemma SizeSet(sb: Super, bm: seq<bv8>, blocks: seq<Block>, inodes: seq<Inode>, i: nat, size: nat)
    requires Core(sb, bm, blocks, inodes) && i < |inodes| && size <= MAXFILE * BSIZE
    ensures var inodes' := inodes[i := inodes[i].(size := size)];
            Core(sb, bm, blocks, inodes') && Rows(blocks, inodes') == Rows(blocks, inodes)
  {
    hide Bit;
    var inodes' := inodes[i := inodes[i].(size := size)];
    assert RowOf(blocks, inodes'[i]) == RowOf(blocks, inodes[i]);
    assert Rows(blocks, inodes') == Rows(blocks, inodes);
  }

  // The end of writei(): the size covers what was written, and the file has
  // no holes.
  lemma WriteClosed(sb: Super, blocks0: seq<Block>, inodes0: seq<Inode>,
                    bm: seq<bv8>, blocks: seq<Block>, inodes: seq<Inode>,
                    i: nat, src: seq<Byte>, off: nat, nb: nat, size': nat)
    requires InodesOk(inodes0, |blocks0|) && i < |inodes0|
    requires NoHoles(Rows(blocks0, inodes0), inodes0)
    requires Writing(sb, blocks0, inodes0, bm, blocks, inodes, i, src, off, |src|, nb)
    requires size' == if off + |src| > inodes0[i].size then off + |src| else inodes0[i].size
    requires nb == NeedBlocks(inodes0[i].size, off + |src|)
    ensures |inodes| == |inodes0| && size' <= MAXFILE * BSIZE
    ensures var inodes' := inodes[i := inodes[i].(size := size')];
            && Core(sb, bm, blocks, inodes') && NoHoles(Rows(blocks, inodes'), inodes')
            && Rows(blocks, inodes') == Rows(blocks, inodes)
            && inodes'[i].typ == inodes0[i].typ
            && (forall j | 0 <= j < |inodes'| && j != i :: inodes'[j] == inodes0[j])
            && SameButSpliced(blocks0, inodes0, blocks, inodes', i, src, off)
  {
    hide RowOf, ByteAt, Bit, Unique, Marked;
    SizeSet(sb, bm, blocks, inodes, i, size');
    WritingDone(sb, blocks0, inodes0, bm, blocks, inodes, i, src, off, nb, size');
    assert BlocksFor(size') == nb;
  }

  // File i is as before with src spliced in at off, all others as before.
  ghost predicate SameButSpliced(blocks0: seq<Block>, inodes0: seq<Inode>,
                                 blocks: seq<Block>, inodes: seq<Inode>,
                                 i: nat, src: seq<Byte>, off: nat)
    requires InodesOk(inodes0, |blocks0|) && InodesOk(inodes, |blocks|)
    requires i < |inodes| == |inodes0| && off <= inodes0[i].size
  {
    && FileBytes(blocks, inodes, i) == Splice(FileBytes(blocks0, inodes0, i), off, src)
    && forall j | 0 <= j < |inodes| && j != i ::
         FileBytes(blocks, inodes, j) == FileBytes(blocks0, inodes0, j)
  }

  // Two writes one after the other are one write.
  lemma SpliceTwice(was: seq<Byte>, off: nat, a: seq<Byte>, b: seq<Byte>)
    requires off <= |was|
    ensures off + |a| <= |Splice(was, off, a)|
    ensures Splice(Splice(was, off, a), off + |a|, b) == Splice(was, off, a + b)
  {
  }

  // What readi() of n bytes at pos of file j gives after a write to file i:
  // the bytes written, and elsewhere and in other files what was there.
  lemma ReadAfterWrite(blocks0: seq<Block>, inodes0: seq<Inode>, blocks: seq<Block>, inodes: seq<Inode>,
                       i: nat, src: seq<Byte>, off: nat, j: nat, pos: nat, dst: seq<Byte>, k: nat)
    requires InodesOk(inodes0, |blocks0|) && InodesOk(inodes, |blocks|)
    requires i < |inodes| == |inodes0| && off <= inodes0[i].size && j < |inodes|
    requires SameButSpliced(blocks0, inodes0, blocks, inodes, i, src, off)
    requires pos + |dst| <= inodes[j].size && dst == FileBytes(blocks, inodes, j)[pos..pos + |dst|]
    requires k < |dst|
    ensures j == i && off <= pos + k < off + |src| ==> dst[k] == src[pos + k - off]
    ensures !(j == i && off <= pos + k < off + |src|) ==>
              pos + k < inodes0[j].size && dst[k] == FileBytes(blocks0, inodes0, j)[pos + k]
  {
    hide Content, Rows;
    assert dst[k] == FileBytes(blocks, inodes, j)[pos + k];
  }

  lemma SplicedTwice(blocks0: seq<Block>, inodes0: seq<Inode>, blocks1: seq<Block>, inodes1: seq<Inode>,
                     blocks2: seq<Block>, inodes2: seq<Inode>, i: nat, a: seq<Byte>, b: seq<Byte>, off: nat)
    requires InodesOk(inodes0, |blocks0|) && InodesOk(inodes1, |blocks1|) && InodesOk(inodes2, |blocks2|)
    requires i < |inodes0| == |inodes1| == |inodes2|
    requires off <= inodes0[i].size && off + |a| <= inodes1[i].size
    requires SameButSpliced(blocks0, inodes0, blocks1, inodes1, i, a, off)
    requires SameButSpliced(blocks1, inodes1, blocks2, inodes2, i, b, off + |a|)
    ensures SameButSpliced(blocks0, inodes0, blocks2, inodes2, i, a + b, off)
  {
    hide Rows, Content, Splice;
    SpliceTwice(FileBytes(blocks0, inodes0, i), off, a, b);
  }

  // ---- How many blocks a write logs ----

  // Data blocks, bitmap blocks, the indirect block and the inode block.
  function LogBound(size: nat, off: nat, n: nat): int
    requires off <= size
  {
    DataLogBound(size, off, n) + if n > 0 && off + n > size then 1 else 0
  }

  function DataLogBound(size: nat, off: nat, n: nat): int
    requires off <= size
  {
    var nb0, nb := BlocksFor(size), NeedBlocks(size, off + n);
    RoundsDone(off, n) + NewBlocks(nb0, nb) + if nb0 < nb && NDIRECT < nb then 1 else 0
  }

  // Blocks allocated when a file grows from nb0 to nb blocks.
  function NewBlocks(nb0: nat, nb: nat): nat
    requires nb0 <= nb
  {
    nb - nb0 + if nb0 <= NDIRECT < nb then 1 else 0
  }

  // The chunks of filewrite() stay within MAXOPBLOCKS.
  lemma ChunkFits(size: nat, off: nat, n: nat)
    requires off <= size && n <= 1536
    ensures LogBound(size, off, n) <= 10
  {
  }

  lemma SubsetCard<T>(a: set<T>, b: set<T>)
    requires a <= b
    ensures |a| <= |b|
  {
    assert b == a + (b - a);
  }

  // The blocks logged, counted.
  lemma LoggedCount(before: set<nat>, after: set<nat>, seen: set<nat>, last: set<nat>)
    requires after <= before + seen + last
    ensures |after - before| <= |seen| + |last|
  {
    SubsetCard(after - before, seen + last);
  }

  lemma OneMoreLogged(before: set<nat>, logged: set<nat>, x: nat)
    ensures |(logged + {x}) - before| <= |logged - before| + 1
  {
    SubsetCard((logged + {x}) - before, (logged - before) + {x});
  }

  // After some rounds of a write, which took the file from nb0 to nb blocks:
  // data and bitmap blocks are in seen, the indirect block a in ind.
  ghost predicate Counted(before: set<nat>, logged: set<nat>, seen: set<nat>, ind: set<nat>,
                          a: nat, nb0: nat, nb: nat, rounds: int)
  {
    && logged <= before + seen + ind
    && nb0 <= nb
    && |seen| <= rounds + NewBlocks(nb0, nb)
    && (ind == {} || (nb0 < nb && nb > NDIRECT && ind == {a}))
  }

  lemma CountRound(before: set<nat>, logged: set<nat>, logged': set<nat>, seen: set<nat>,
                   extra: set<nat>, ind: set<nat>, a: nat, a': nat,
                   nb0: nat, nb: nat, nb': nat, rounds: int)
    requires Counted(before, logged, seen, ind, a, nb0, nb, rounds) && nb <= nb'
    requires logged' == logged + extra + if nb < nb' && NDIRECT < nb' then {a'} else {}
    requires |extra| <= 1 + NewBlocks(nb, nb')
    requires nb > NDIRECT ==> a' == a
    ensures Counted(before, logged', seen + extra, if nb < nb' && NDIRECT < nb' then {a'} else ind,
                    a', nb0, nb', rounds + 1)
  {
  }

  lemma CountedBound(before: set<nat>, logged: set<nat>, seen: set<nat>, ind: set<nat>,
                     a: nat, nb0: nat, nb: nat, rounds: int)
    requires Counted(before, logged, seen, ind, a, nb0, nb, rounds)
    ensures nb0 <= nb
    ensures |logged - before| <=
              rounds + NewBlocks(nb0, nb) + if nb0 < nb && NDIRECT < nb then 1 else 0
  {
    LoggedCount(before, logged, seen, ind);
  }

  // ---- Which blocks a write logs ----

  // Writing block bn of a file that had nb0 blocks logged it, and if it had
  // to be allocated its bitmap block and the indirect block with its own.
  ghost predicate BlockLogged(sb: Super, logged: set<nat>, row: Row, bn: nat, nb0: nat)
    requires |row| == NSLOTS && bn < MAXFILE
  {
    && row[Slot(bn)] in logged
    && (bn >= nb0 ==> sb.Bblock(row[Slot(bn)]) in logged)
    && (bn >= nb0 && bn >= NDIRECT ==> row[NDIRECT] in logged)
    && (bn >= nb0 && bn == NDIRECT ==> sb.Bblock(row[NDIRECT]) in logged)
  }

  // So for blocks first..bn.
  ghost predicate AllLogged(sb: Super, logged: set<nat>, row: Row, first: nat, bn: nat, nb0: nat) {
    |row| == NSLOTS && bn <= MAXFILE &&
    forall b | first <= b < bn :: BlockLogged(sb, logged, row, b, nb0)
  }

  lemma LoggedRound(sb: Super, logged: set<nat>, logged': set<nat>, row: Row, row': Row,
                    first: nat, bn: nat, nb0: nat, nb: nat)
    requires AllLogged(sb, logged, row, first, bn, nb0) && logged <= logged' && KeptRow(row, row')
    requires bn < MAXFILE && bn <= nb && Alloc(row, nb)
    requires BlockLogged(sb, logged', row', bn, nb) && (bn >= nb0 <==> bn >= nb)
    ensures AllLogged(sb, logged', row', first, bn + 1, nb0)
  {
    forall b | first <= b < bn ensures BlockLogged(sb, logged', row', b, nb0) {
      assert BlockLogged(sb, logged, row, b, nb0);
    }
  }

  lemma MoreLogged(sb: Super, logged: set<nat>, logged': set<nat>, row: Row, first: nat, bn: nat, nb0: nat)
    requires AllLogged(sb, logged, row, first, bn, nb0) && logged <= logged'
    ensures AllLogged(sb, logged', row, first, bn, nb0)
  {
    forall b | first <= b < bn ensures BlockLogged(sb, logged', row, b, nb0) {
      assert BlockLogged(sb, logged, row, b, nb0);
    }
  }

  // The blocks bs are in different bitmap blocks, which with the inode block
  // of i are before the data blocks.
  ghost predicate Separate(sb: Super, i: nat, bs: seq<nat>) {
    && sb.Iblock(i) < sb.nmeta
    && (forall a | 0 <= a < |bs| :: sb.Bblock(bs[a]) < sb.nmeta && sb.Bblock(bs[a]) != sb.Iblock(i))
    && (forall a, b | 0 <= a < b < |bs| :: sb.Bblock(bs[a]) != sb.Bblock(bs[b]))
  }

  lemma TenBlocks(sb: Super, bm: seq<bv8>, R: seq<Row>, i: nat, logged: set<nat>)
    requires sb.Ok() && RowsOk(R) && sb.size <= 8 * |bm| && Unique(R) && Marked(sb, bm, R) && i < |R|
    requires Alloc(R[i], 15)
    requires var row := R[i];
      && row[11] in logged && row[12] in logged && row[13] in logged && row[14] in logged && row[15] in logged
      && sb.Iblock(i) in logged && sb.Bblock(row[12]) in logged && sb.Bblock(row[13]) in logged
      && sb.Bblock(row[14]) in logged && sb.Bblock(row[15]) in logged
      && Separate(sb, i, [row[12], row[13], row[14], row[15]])
    ensures |logged| >= 10
  {
    hide Bit, Separate;
    var row := R[i];
    var data := [row[11], row[12], row[13], row[14], row[15]];
    var meta := [sb.Iblock(i), sb.Bblock(row[12]), sb.Bblock(row[13]), sb.Bblock(row[14]), sb.Bblock(row[15])];
    var hi, lo := set x | x in logged && x >= sb.nmeta, set x | x in logged && x < sb.nmeta;
    DataDistinct(sb, bm, R, i, data);
    MetaDistinct(sb, i, [row[12], row[13], row[14], row[15]], meta);
    DistinctInside(data, hi);
    DistinctInside(meta, lo);
    assert logged == hi + lo && hi !! lo;
  }

  lemma DataDistinct(sb: Super, bm: seq<bv8>, R: seq<Row>, i: nat, data: seq<nat>)
    requires sb.Ok() && RowsOk(R) && sb.size <= 8 * |bm| && Unique(R) && Marked(sb, bm, R) && i < |R|
    requires Alloc(R[i], 15) && data == R[i][11..16]
    ensures forall a | 0 <= a < 5 :: data[a] >= sb.nmeta
    ensures forall a, b | 0 <= a < b < 5 :: data[a] != data[b]
  {
    hide Bit;
    var row := R[i];
    assert row[Slot(11)] != 0 && row[Slot(12)] != 0 && row[Slot(13)] != 0 && row[Slot(14)] != 0;
    forall a | 0 <= a < 5 ensures data[a] == row[11 + a] != 0 { }
  }

  lemma MetaDistinct(sb: Super, i: nat, bs: seq<nat>, meta: seq<nat>)
    requires |bs| == 4 && Separate(sb, i, bs)
    requires meta == [sb.Iblock(i), sb.Bblock(bs[0]), sb.Bblock(bs[1]), sb.Bblock(bs[2]), sb.Bblock(bs[3])]
    ensures forall a | 0 <= a < 5 :: meta[a] < sb.nmeta
    ensures forall a, b | 0 <= a < b < 5 :: meta[a] != meta[b]
  {
    forall a | 1 <= a < 5 ensures meta[a] == sb.Bblock(bs[a - 1]) { }
  }

  lemma {:induction false} DistinctInside(xs: seq<nat>, s: set<nat>)
    requires forall a, b | 0 <= a < b < |xs| :: xs[a] != xs[b]
    requires forall a | 0 <= a < |xs| :: xs[a] in s
    ensures |s| >= |xs|
  {
    if xs != [] {
      var n := |xs| - 1;
      assert forall a | 0 <= a < n :: xs[a] in s - {xs[n]};
      DistinctInside(xs[..n], s - {xs[n]});
    }
  }

  // What writei() has done: file i has src spliced in at off and covers it;
  // the blocks it logged are these, within the bound.
  ghost predicate Written(sb: Super, blocks0: seq<Block>, inodes0: seq<Inode>, logged0: set<nat>,
                          blocks: seq<Block>, inodes: seq<Inode>, logged: set<nat>,
                          i: nat, src: seq<Byte>, off: nat)
    requires InodesOk(inodes0, |blocks0|) && i < |inodes0| && off <= inodes0[i].size
    requires InodesOk(inodes, |blocks|) && |inodes| == |inodes0|
  {
    && inodes[i].size == (if off + |src| > inodes0[i].size then off + |src| else inodes0[i].size)
    && inodes[i].typ == inodes0[i].typ
    && (forall j | 0 <= j < |inodes| && j != i :: inodes[j] == inodes0[j])
    && SameButSpliced(blocks0, inodes0, blocks, inodes, i, src, off)
    && |logged - logged0| <= LogBound(inodes0[i].size, off, |src|)
    && AllLogged(sb, logged, Rows(blocks, inodes)[i], off / BSIZE, off / BSIZE + RoundsDone(off, |src|),
                 BlocksFor(inodes0[i].size))
    && (src != [] && off + |src| > inodes0[i].size ==> sb.Iblock(i) in logged)
  }

  // From the end of writei()'s loop, with inodes1 and mid logged, to its
  // return.
  lemma WriteFinished(sb: Super, blocks0: seq<Block>, inodes0: seq<Inode>, logged0: set<nat>, mid: set<nat>,
                      bm: seq<bv8>, blocks: seq<Block>, inodes1: seq<Inode>, inodes: seq<Inode>, logged: set<nat>,
                      i: nat, src: seq<Byte>, off: nat)
    requires InodesOk(inodes0, |blocks0|) && i < |inodes0| && off <= inodes0[i].size
    requires off + |src| <= MAXFILE * BSIZE
    requires NoHoles(Rows(blocks0, inodes0), inodes0)
    requires Writing(sb, blocks0, inodes0, bm, blocks, inodes1, i, src, off, |src|,
                     NeedBlocks(inodes0[i].size, off + |src|))
    requires |mid - logged0| <= DataLogBound(inodes0[i].size, off, |src|)
    requires AllLogged(sb, mid, Rows(blocks, inodes1)[i], off / BSIZE, off / BSIZE + RoundsDone(off, |src|),
                       BlocksFor(inodes0[i].size))
    requires var grown := |src| > 0 && off + |src| > inodes0[i].size;
      && inodes == (if grown then inodes1[i := inodes1[i].(size := off + |src|)] else inodes1)
      && logged == mid + (if grown then {sb.Iblock(i)} else {})
    ensures Core(sb, bm, blocks, inodes) && |inodes| == |inodes0| && NoHoles(Rows(blocks, inodes), inodes)
    ensures |inodes1| == |inodes| && Rows(blocks, inodes) == Rows(blocks, inodes1)
    ensures Written(sb, blocks0, inodes0, logged0, blocks, inodes, logged, i, src, off)
  {
    hide Core, ByteAt, RowOf, Rows, Bit, Writing, RoundsDone, NeedBlocks, NewBlocks, Alloc,
         SameButSpliced, DataLogBound, BlockLogged, AllLogged, NoHoles;
    var size, n := inodes0[i].size, |src|;
    var size' := if off + n > size then off + n else size;
    WritingFacts(sb, blocks0, inodes0, bm, blocks, inodes1, i, src, off, n, NeedBlocks(size, off + n));
    WriteClosed(sb, blocks0, inodes0, bm, blocks, inodes1, i, src, off, NeedBlocks(size, off + n), size');
    assert inodes == inodes1[i := inodes1[i].(size := size')];
    OneMoreLogged(logged0, mid, sb.Iblock(i));
    MoreLogged(sb, mid, logged, Rows(blocks, inodes1)[i], off / BSIZE, off / BSIZE + RoundsDone(off, n),
               BlocksFor(size));
  }

  // No two free blocks share a bitmap block.
  ghost predicate FreeAreSpread(sb: Super, bm: seq<bv8>) {
    && sb.size <= 8 * |bm|
    && forall b, c | 0 <= b < sb.size && 0 <= c < sb.size && b != c && !Bit(bm, b) && !Bit(bm, c) ::
         sb.Bblock(b) != sb.Bblock(c)
  }

  // The bound of ChunkFits is reached: when a file of 5633 bytes gets 1536
  // more on such a disk, ten blocks are logged.
  lemma ChunkIsTight(sb: Super, bm0: seq<bv8>, blocks0: seq<Block>, inodes0: seq<Inode>,
                     bm: seq<bv8>, blocks: seq<Block>, inodes: seq<Inode>, logged: set<nat>, i: nat, src: seq<Byte>)
    requires Core(sb, bm0, blocks0, inodes0) && NoHoles(Rows(blocks0, inodes0), inodes0)
    requires Core(sb, bm, blocks, inodes) && NoHoles(Rows(blocks, inodes), inodes)
    requires i < |inodes| == |inodes0| && inodes0[i].size == 5633 && |src| == 1536
    requires Written(sb, blocks0, inodes0, {}, blocks, inodes, logged, i, src, 5633)
    requires NewWereFree(sb, bm0, Rows(blocks0, inodes0)[i], bm, Rows(blocks, inodes)[i])
    // Inode blocks, then bitmap blocks, then data.
    requires sb.Iblock(i) < sb.bmapstart && sb.Bblock(sb.size) < sb.nmeta && FreeAreSpread(sb, bm0)
    ensures |logged| == 10 == LogBound(5633, 5633, 1536)
  {
    hide Bit, Core, Rows, SameButSpliced, FreeAreSpread, NewWereFree;
    CoreParts(sb, bm, blocks, inodes);
    CoreShape(sb, bm0, blocks0, inodes0);
    var R0, R := Rows(blocks0, inodes0), Rows(blocks, inodes);
    var row0, row := R0[i], R[i];
    assert BlocksFor(5633) == 12 && BlocksFor(7169) == 15 && 5633 / BSIZE == 11 && RoundsDone(5633, 1536) == 4;
    assert Alloc(row0, 12) && Alloc(row, 15);
    assert BlockLogged(sb, logged, row, 11, 12) && BlockLogged(sb, logged, row, 12, 12);
    assert BlockLogged(sb, logged, row, 13, 12) && BlockLogged(sb, logged, row, 14, 12);
    NewAreSeparate(sb, bm0, row0, bm, R, i);
    TenBlocks(sb, bm, R, i, logged);
    assert logged - {} == logged;
  }

  lemma CoreParts(sb: Super, bm: seq<bv8>, blocks: seq<Block>, inodes: seq<Inode>)
    requires Core(sb, bm, blocks, inodes)
    ensures sb.Ok() && sb.size <= 8 * |bm| && InodesOk(inodes, |blocks|)
    ensures Unique(Rows(blocks, inodes)) && Marked(sb, bm, Rows(blocks, inodes))
  {
  }

  lemma NewAreSeparate(sb: Super, bm0: seq<bv8>, row0: Row, bm: seq<bv8>, R: seq<Row>, i: nat)
    requires RowsOk(R) && Unique(R) && i < |R| && |row0| == NSLOTS && Alloc(row0, 12) && Alloc(R[i], 15)
    requires NewWereFree(sb, bm0, row0, bm, R[i]) && FreeAreSpread(sb, bm0)
    requires sb.Iblock(i) < sb.bmapstart && sb.Bblock(sb.size) < sb.nmeta
    ensures Separate(sb, i, [R[i][12], R[i][13], R[i][14], R[i][15]])
  {
    hide Bit;
    var row := R[i];
    var bs := [row[12], row[13], row[14], row[15]];
    assert row0[Slot(12)] == 0 && row0[Slot(13)] == 0 && row0[Slot(14)] == 0;
    assert row[Slot(12)] != 0 && row[Slot(13)] != 0 && row[Slot(14)] != 0;
    forall a | 0 <= a < 4
      ensures bs[a] == row[12 + a] && bs[a] < sb.size && !Bit(bm0, bs[a]) && sb.Bblock(bs[a]) < sb.nmeta
    {
      assert row0[12 + a] == 0 && row[12 + a] != 0;
      BblockGrows(sb, bs[a]);
    }
  }

  lemma BblockGrows(sb: Super, b: nat)
    requires b < sb.size
    ensures sb.bmapstart <= sb.Bblock(b) <= sb.Bblock(sb.size)
  {
  }

  // What the rounds so far have logged: counted, and named.
  ghost predicate RoundsLogged(sb: Super, before: set<nat>, logged: set<nat>, seen: set<nat>, ind: set<nat>,
                               row: Row, first: nat, nb0: nat, nb: nat, rounds: nat) {
    && |row| == NSLOTS && Counted(before, logged, seen, ind, row[NDIRECT], nb0, nb, rounds)
    && AllLogged(sb, logged, row, first, first + rounds, nb0)
  }

  lemma RoundsStart(sb: Super, logged: set<nat>, row: Row, off: nat, nb0: nat)
    requires |row| == NSLOTS && off <= MAXFILE * BSIZE
    ensures RoundsLogged(sb, logged, logged, {}, {}, row, off / BSIZE, nb0, nb0, 0)
  {
  }

  lemma RoundsNext(sb: Super, before: set<nat>, logged: set<nat>, logged': set<nat>, seen: set<nat>,
                   extra: set<nat>, ind: set<nat>, row: Row, row': Row, off: nat, tot: nat, size: nat, nb': nat)
    requires off <= size && off + tot < MAXFILE * BSIZE && (tot == 0 || (off + tot) % BSIZE == 0)
    requires RoundsLogged(sb, before, logged, seen, ind, row, off / BSIZE, BlocksFor(size),
                          NeedBlocks(size, off + tot), RoundsDone(off, tot))
    requires Alloc(row, NeedBlocks(size, off + tot)) && KeptRow(row, row')
    requires NeedBlocks(size, off + tot) <= nb'
    requires var nb := NeedBlocks(size, off + tot);
      && BlockLogged(sb, logged', row', (off + tot) / BSIZE, nb)
      && logged' == logged + extra + (if nb < nb' && NDIRECT < nb' then {row'[NDIRECT]} else {})
      && |extra| <= 1 + NewBlocks(nb, nb')
    ensures RoundsLogged(sb, before, logged', seen + extra,
                         if NeedBlocks(size, off + tot) < nb' && NDIRECT < nb' then {row'[NDIRECT]} else ind,
                         row', off / BSIZE, BlocksFor(size), nb', RoundsDone(off, tot) + 1)
  {
    hide NeedBlocks, BlocksFor, RoundsDone, BlockLogged, AllLogged, Counted, NewBlocks;
    var nb0, nb, rounds := BlocksFor(size), NeedBlocks(size, off + tot), RoundsDone(off, tot);
    RoundPlace(size, off, tot);
    CountRound(before, logged, logged', seen, extra, ind, row[NDIRECT], row'[NDIRECT], nb0, nb, nb', rounds);
    LoggedRound(sb, logged, logged', row, row', off / BSIZE, (off + tot) / BSIZE, nb0, nb);
  }

  lemma RoundsBound(sb: Super, before: set<nat>, logged: set<nat>, seen: set<nat>, ind: set<nat>,
                    row: Row, size: nat, off: nat, n: nat)
    requires off <= size
    requires RoundsLogged(sb, before, logged, seen, ind, row, off / BSIZE, BlocksFor(size),
                          NeedBlocks(size, off + n), RoundsDone(off, n))
    ensures |logged - before| <= DataLogBound(size, off, n)
    ensures AllLogged(sb, logged, row, off / BSIZE, off / BSIZE + RoundsDone(off, n), BlocksFor(size))
  {
    hide AllLogged;
    CountedBound(before, logged, seen, ind, row[NDIRECT], BlocksFor(size), NeedBlocks(size, off + n),
                 RoundsDone(off, n));
  }

  // What bmap() logs when it allocates block bn, with or without a first
  // indirect block.
  function MapLogged(sb: Super, row: Row, bn: nat, first: bool): set<nat>
    requires |row| == NSLOTS && bn < MAXFILE
  {
    var x, ind := row[Slot(bn)], row[NDIRECT];
    if bn < NDIRECT then {x, sb.Bblock(x)}
    else if first then {x, sb.Bblock(x), ind, sb.Bblock(ind)}
    else {x, sb.Bblock(x), ind}
  }

  // What one round logs, and what of it may be new each time.
  lemma RoundLogged(sb: Super, was: set<nat>, row: Row, bn: nat, nb: nat, nb': nat) returns (extra: set<nat>)
    requires |row| == NSLOTS && bn <= nb && bn < MAXFILE && nb' == if bn < nb then nb else nb + 1
    ensures was + (if bn < nb then {row[Slot(bn)]} else MapLogged(sb, row, bn, bn == NDIRECT)) ==
              was + extra + if nb < nb' && NDIRECT < nb' then {row[NDIRECT]} else {}
    ensures |extra| <= 1 + NewBlocks(nb, nb')
  {
    var x, ind := row[Slot(bn)], row[NDIRECT];
    var y, z := sb.Bblock(x), sb.Bblock(ind);
    CardThree(x, y, z);
    extra := if bn < nb then {x} else if bn == NDIRECT then {x, y, z} else {x, y};
  }

  lemma RoundBlockLogged(sb: Super, was: set<nat>, row: Row, bn: nat, nb: nat)
    requires |row| == NSLOTS && bn <= nb && bn < MAXFILE
    ensures BlockLogged(sb, was + (if bn < nb then {row[Slot(bn)]} else MapLogged(sb, row, bn, bn == NDIRECT)),
                        row, bn, nb)
  {
  }

  lemma CardThree(x: nat, y: nat, z: nat)
    ensures |{x, y, z}| <= 3 && |{x, y}| <= 2
  {
  }
}
