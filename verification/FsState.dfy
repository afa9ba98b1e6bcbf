// Files on disk (fs.c): inodes, their direct and indirect block references,
// who owns which block, and what bytes a file holds.
module FsState {
  import opened Blocks
  import opened Bitmap

  const NDIRECT: nat := 12
  const NINDIRECT: nat := 128
  const MAXFILE: nat := 140
  const BPB: nat := 4096
  const IPB: nat := 8
  const T_DEV: nat := 3

  // References of an inode: slots 0..11 are addrs[0..11], slot 12 is
  // addrs[NDIRECT] (the indirect block), slots 13.. its entries.
  const NSLOTS: nat := 141

  datatype Super = Super(size: nat, inodestart: nat, bmapstart: nat, nmeta: nat) {
    predicate Ok() {
      1 <= nmeta <= size < 0x8000_0000
    }

    // Block numbers of the bitmap block of b, and of the inode block of inum.
    function Bblock(b: nat): nat { b / BPB + bmapstart }
    function Iblock(inum: nat): nat { inum / IPB + inodestart }
  }

  // Bit bi of the bitmap block that begins at bit b.
  lemma BitPlace(b: nat, bi: nat)
    requires b % BPB == 0 && bi < BPB
    ensures (b + bi) / 8 == b / 8 + bi / 8 && (b + bi) % 8 == bi % 8 && (b + bi) / BPB == b / BPB
  {
    var q, d, r := b / BPB, bi / 8, bi % 8;
    assert b == BPB * q && bi == 8 * d + r;
    Quotient(BSIZE * q + d, r);
    Quotient(BSIZE * q, 0);
  }

  lemma BitAt(bm: seq<bv8>, b: nat, bi: nat)
    requires b % BPB == 0 && bi < BPB && b + bi < 8 * |bm|
    ensures b / 8 + bi / 8 < |bm| && (Bit(bm, b + bi) <==> ByteBit(bm[b / 8 + bi / 8], bi % 8))
  {
    BitPlace(b, bi);
  }

  lemma Quotient(q: nat, r: nat)
    requires r < 8
    ensures (8 * q + r) / 8 == q && (8 * q + r) % 8 == r
  {
  }

  datatype Inode = Inode(typ: nat, size: nat, addrs: seq<Word>)

  type Row = seq<nat>

  function Slot(bn: nat): nat {
    if bn < NDIRECT then bn else bn + 1
  }

  predicate InodeOk(ino: Inode, nblocks: nat) {
    |ino.addrs| == NDIRECT + 1 && ino.addrs[NDIRECT] < nblocks && ino.size <= MAXFILE * BSIZE
  }

  function RefAt(blocks: seq<Block>, ino: Inode, s: nat): Word
    requires InodeOk(ino, |blocks|) && s < NSLOTS
  {
    if s <= NDIRECT then ino.addrs[s]
    else if ino.addrs[NDIRECT] == 0 then 0
    else WordAt(blocks[ino.addrs[NDIRECT]], s - NDIRECT - 1)
  }

  function RowOf(blocks: seq<Block>, ino: Inode): (row: Row)
    requires InodeOk(ino, |blocks|)
    ensures |row| == NSLOTS && forall s | 0 <= s < NSLOTS :: row[s] == RefAt(blocks, ino, s)
  {
    seq(NSLOTS, s requires 0 <= s < NSLOTS => RefAt(blocks, ino, s))
  }

  predicate InodesOk(inodes: seq<Inode>, nblocks: nat) {
    forall i | 0 <= i < |inodes| :: InodeOk(inodes[i], nblocks)
  }

  function Rows(blocks: seq<Block>, inodes: seq<Inode>): (R: seq<Row>)
    requires InodesOk(inodes, |blocks|)
    ensures |R| == |inodes| && forall i | 0 <= i < |R| :: |R[i]| == NSLOTS && R[i] == RowOf(blocks, inodes[i])
  {
    seq(|inodes|, i requires 0 <= i < |inodes| => RowOf(blocks, inodes[i]))
  }

  // ---- Ownership ----

  ghost predicate RowsOk(R: seq<Row>) {
    forall i | 0 <= i < |R| :: |R[i]| == NSLOTS
  }

  // Every block in use by files has one owner.
  ghost predicate Unique(R: seq<Row>)
    requires RowsOk(R)
  {
    forall i, s, j, t | 0 <= i < |R| && 0 <= s < NSLOTS && 0 <= j < |R| && 0 <= t < NSLOTS ::
      R[i][s] == R[j][t] != 0 ==> i == j && s == t
  }

  // Owned blocks are data blocks, and marked in use.
  ghost predicate Marked(sb: Super, bm: seq<bv8>, R: seq<Row>)
    requires RowsOk(R) && sb.size <= 8 * |bm|
  {
    forall i, s | 0 <= i < |R| && 0 <= s < NSLOTS && R[i][s] != 0 ::
      sb.nmeta <= R[i][s] < sb.size && Bit(bm, R[i][s])
  }

  ghost predicate MetaMarked(sb: Super, bm: seq<bv8>)
    requires sb.Ok() && sb.size <= 8 * |bm|
  {
    forall b | 0 <= b < sb.nmeta :: Bit(bm, b)
  }

  ghost predicate Absent(R: seq<Row>, b: nat)
    requires RowsOk(R)
  {
    forall i, s | 0 <= i < |R| && 0 <= s < NSLOTS :: R[i][s] != b
  }

  // The first nb blocks of the file exist, and no others.
  ghost predicate Alloc(row: Row, nb: nat)
    requires |row| == NSLOTS
  {
    && (forall bn | 0 <= bn < MAXFILE :: row[Slot(bn)] != 0 <==> bn < nb)
    && (row[NDIRECT] != 0 <==> nb > NDIRECT)
  }

  function BlocksFor(size: nat): nat {
    (size + BSIZE - 1) / BSIZE
  }

  ghost predicate NoHoles(R: seq<Row>, inodes: seq<Inode>)
    requires RowsOk(R) && |R| == |inodes|
  {
    forall i | 0 <= i < |R| :: Alloc(R[i], BlocksFor(inodes[i].size))
  }

  // ---- File contents ----

  function ByteAt(blocks: seq<Block>, row: Row, k: nat): Byte
    requires |row| == NSLOTS && k / BSIZE < MAXFILE
  {
    var b := row[Slot(k / BSIZE)];
    if b < |blocks| then blocks[b].bytes[k % BSIZE] else 0
  }

  function Content(blocks: seq<Block>, row: Row, size: nat): (c: seq<Byte>)
    requires |row| == NSLOTS && size <= MAXFILE * BSIZE
    ensures |c| == size
  {
    seq(size, k requires 0 <= k < size => ByteAt(blocks, row, k))
  }

  // The bytes of file i.
  function FileBytes(blocks: seq<Block>, inodes: seq<Inode>, i: nat): (c: seq<Byte>)
    requires InodesOk(inodes, |blocks|) && i < |inodes|
    ensures |c| == inodes[i].size
  {
    Content(blocks, Rows(blocks, inodes)[i], inodes[i].size)
  }

  // The bytes was, with src written over it at off.
  function Splice(was: seq<Byte>, off: nat, src: seq<Byte>): seq<Byte>
    requires off <= |was|
  {
    was[..off] + src + if off + |src| <= |was| then was[off + |src|..] else []
  }
}
