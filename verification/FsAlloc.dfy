// Allocating a block to a file keeps every block singly owned.
module FsAlloc {
  import opened Blocks
  import opened Bitmap
  import opened FsState

  // What every operation of fs.c keeps, whatever it has half done.
  ghost predicate Core(sb: Super, bm: seq<bv8>, blocks: seq<Block>, inodes: seq<Inode>) {
    && sb.Ok() && |blocks| == sb.size && sb.size <= 8 * |bm|
    && InodesOk(inodes, |blocks|)
    && Unique(Rows(blocks, inodes))
    && Marked(sb, bm, Rows(blocks, inodes))
    && MetaMarked(sb, bm)
  }

  lemma CoreShape(sb: Super, bm: seq<bv8>, blocks: seq<Block>, inodes: seq<Inode>)
    requires Core(sb, bm, blocks, inodes)
    ensures InodesOk(inodes, |blocks|) && |blocks| == sb.size <= 8 * |bm|
  {
  }

  // Where the reference to block bn of a file is.
  lemma ReferenceAt(sb: Super, bm: seq<bv8>, blocks: seq<Block>, inodes: seq<Inode>, i: nat, bn: nat)
    requires Core(sb, bm, blocks, inodes) && i < |inodes| && bn < MAXFILE
    ensures |inodes[i].addrs| == NDIRECT + 1 && inodes[i].addrs[NDIRECT] < |blocks|
    ensures var b, a := Rows(blocks, inodes)[i][Slot(bn)], inodes[i].addrs[NDIRECT];
      && b == (if bn < NDIRECT then inodes[i].addrs[bn] else if a == 0 then 0 else WordAt(blocks[a], bn - NDIRECT))
      && b < |blocks|
  {
    hide WordAt, Unique, MetaMarked;
    assert Rows(blocks, inodes)[i][Slot(bn)] == RefAt(blocks, inodes[i], Slot(bn));
  }

  // ---- Free space ----

  ghost function FreeSet(sb: Super, bm: seq<bv8>): set<nat>
    requires sb.size <= 8 * |bm|
  {
    set b: nat | b < sb.size && !Bit(bm, b)
  }

  ghost function FreeCount(sb: Super, bm: seq<bv8>): nat
    requires sb.size <= 8 * |bm|
  {
    |FreeSet(sb, bm)|
  }

  lemma NoneFree(sb: Super, bm: seq<bv8>)
    requires sb.size <= 8 * |bm| && forall c | 0 <= c < sb.size :: Bit(bm, c)
    ensures FreeCount(sb, bm) == 0
  {
    assert FreeSet(sb, bm) == {};
  }

  lemma OneTaken(sb: Super, bm: seq<bv8>, r: nat)
    requires r < sb.size <= 8 * |bm| && !Bit(bm, r)
    ensures FreeCount(sb, bm) == FreeCount(sb, SetBit(bm, r)) + 1
  {
    hide Bit;
    assert FreeSet(sb, SetBit(bm, r)) == FreeSet(sb, bm) - {r};
  }

  lemma FreshAbsent(sb: Super, bm: seq<bv8>, R: seq<Row>, v: nat)
    requires sb.Ok() && RowsOk(R) && sb.size <= 8 * |bm| && Marked(sb, bm, R) && MetaMarked(sb, bm)
    requires v < sb.size && !Bit(bm, v)
    ensures Absent(R, v) && v >= sb.nmeta > 0
  {
  }

  ghost function Put(R: seq<Row>, i: nat, s: nat, v: nat): seq<Row>
    requires RowsOk(R) && i < |R| && s < NSLOTS
  {
    var row: Row := R[i][s := v];
    R[i := row]
  }

  // Giving a free block an owner.
  lemma PutOwner(sb: Super, bm: seq<bv8>, R: seq<Row>, i: nat, s: nat, v: nat)
    requires sb.Ok() && RowsOk(R) && sb.size <= 8 * |bm| && Unique(R)
    requires Marked(sb, bm, R) && MetaMarked(sb, bm)
    requires i < |R| && s < NSLOTS && v < sb.size && !Bit(bm, v)
    ensures var R' := Put(R, i, s, v);
            RowsOk(R') && Unique(R') && Marked(sb, SetBit(bm, v), R') && MetaMarked(sb, SetBit(bm, v))
  {
    hide Bit, SetBit;
    FreshAbsent(sb, bm, R, v);
  }

  // ---- How writes to inodes and blocks move the references ----

  lemma RowFrame(blocks: seq<Block>, ino: Inode, b: nat, x: Block)
    requires InodeOk(ino, |blocks|) && b < |blocks|
    requires ino.addrs[NDIRECT] == 0 || ino.addrs[NDIRECT] != b
    ensures RowOf(blocks[b := x], ino) == RowOf(blocks, ino)
  {
  }

  // Writing a block that is nobody's indirect block.
  lemma RowsFrame(blocks: seq<Block>, inodes: seq<Inode>, b: nat, x: Block)
    requires InodesOk(inodes, |blocks|) && b < |blocks|
    requires forall i | 0 <= i < |inodes| ::
               inodes[i].addrs[NDIRECT] == 0 || inodes[i].addrs[NDIRECT] != b
    ensures Rows(blocks[b := x], inodes) == Rows(blocks, inodes)
  {
    forall i | 0 <= i < |inodes| ensures RowOf(blocks[b := x], inodes[i]) == RowOf(blocks, inodes[i]) {
      RowFrame(blocks, inodes[i], b, x);
    }
  }

  lemma AbsentFrame(blocks: seq<Block>, inodes: seq<Inode>, b: nat, x: Block)
    requires InodesOk(inodes, |blocks|) && b < |blocks| && Absent(Rows(blocks, inodes), b)
    ensures Rows(blocks[b := x], inodes) == Rows(blocks, inodes)
  {
    var R := Rows(blocks, inodes);
    forall i | 0 <= i < |inodes| ensures inodes[i].addrs[NDIRECT] != b {
      assert R[i][NDIRECT] == RefAt(blocks, inodes[i], NDIRECT);
    }
    RowsFrame(blocks, inodes, b, x);
  }

  function SetAddr(inodes: seq<Inode>, i: nat, s: nat, v: Word): seq<Inode>
    requires i < |inodes| && s < |inodes[i].addrs|
  {
    inodes[i := inodes[i].(addrs := inodes[i].addrs[s := v])]
  }

  lemma PutDirect(blocks: seq<Block>, inodes: seq<Inode>, i: nat, s: nat, v: Word)
    requires InodesOk(inodes, |blocks|) && i < |inodes| && s < NDIRECT
    ensures InodesOk(SetAddr(inodes, i, s, v), |blocks|)
    ensures Rows(blocks, SetAddr(inodes, i, s, v)) == Put(Rows(blocks, inodes), i, s, v)
  {
    var R := Rows(blocks, inodes);
    assert RowOf(blocks, SetAddr(inodes, i, s, v)[i]) == Put(R, i, s, v)[i];
    assert Rows(blocks, SetAddr(inodes, i, s, v)) == Put(R, i, s, v);
  }

  // A zeroed block has no entries.
  lemma PutIndirect(blocks: seq<Block>, inodes: seq<Inode>, i: nat, v: Word)
    requires InodesOk(inodes, |blocks|) && i < |inodes| && inodes[i].addrs[NDIRECT] == 0
    requires v < |blocks| && blocks[v] == ZeroBlock()
    ensures InodesOk(SetAddr(inodes, i, NDIRECT, v), |blocks|)
    ensures Rows(blocks, SetAddr(inodes, i, NDIRECT, v)) == Put(Rows(blocks, inodes), i, NDIRECT, v)
  {
    hide WordAt, ZeroBlock;
    var ino' := SetAddr(inodes, i, NDIRECT, v)[i];
    var R := Rows(blocks, inodes);
    assert RowOf(blocks, ino') == Put(R, i, NDIRECT, v)[i];
    assert Rows(blocks, SetAddr(inodes, i, NDIRECT, v)) == Put(R, i, NDIRECT, v);
  }

  lemma PutEntry(blocks: seq<Block>, inodes: seq<Inode>, i: nat, k: nat, v: Word)
    requires InodesOk(inodes, |blocks|) && i < |inodes| && k < NINDIRECT
    requires Unique(Rows(blocks, inodes)) && inodes[i].addrs[NDIRECT] != 0
    ensures var a := inodes[i].addrs[NDIRECT];
            Rows(blocks[a := SetWord(blocks[a], k, v)], inodes)
              == Put(Rows(blocks, inodes), i, NDIRECT + 1 + k, v)
  {
    hide WordAt, SetWord;
    var R, a := Rows(blocks, inodes), inodes[i].addrs[NDIRECT];
    var blocks' := blocks[a := SetWord(blocks[a], k, v)];
    forall j | 0 <= j < |inodes|
      ensures RowOf(blocks', inodes[j]) == Put(R, i, NDIRECT + 1 + k, v)[j]
    {
      if j != i {
        assert R[j][NDIRECT] == inodes[j].addrs[NDIRECT] && R[i][NDIRECT] == a;
        RowFrame(blocks, inodes[j], a, SetWord(blocks[a], k, v));
      }
    }
  }

  // ---- The three allocations of bmap() ----

  lemma DirectAllocated(sb: Super, bm: seq<bv8>, blocks: seq<Block>, inodes: seq<Inode>,
                        i: nat, s: nat, v: nat)
    requires Core(sb, bm, blocks, inodes) && i < |inodes| && s < NDIRECT
    requires v < sb.size && !Bit(bm, v)
    ensures var blocks', inodes' := blocks[v := ZeroBlock()], SetAddr(inodes, i, s, v);
            && Core(sb, SetBit(bm, v), blocks', inodes')
            && Rows(blocks', inodes') == Put(Rows(blocks, inodes), i, s, v)
  {
    hide Bit, SetBit, ZeroBlock, RowOf;
    var R := Rows(blocks, inodes);
    FreshAbsent(sb, bm, R, v);
    AbsentFrame(blocks, inodes, v, ZeroBlock());
    PutDirect(blocks[v := ZeroBlock()], inodes, i, s, v);
    PutOwner(sb, bm, R, i, s, v);
  }

  lemma IndirectAllocated(sb: Super, bm: seq<bv8>, blocks: seq<Block>, inodes: seq<Inode>,
                          i: nat, v: nat)
    requires Core(sb, bm, blocks, inodes) && i < |inodes| && inodes[i].addrs[NDIRECT] == 0
    requires v < sb.size && !Bit(bm, v)
    ensures var blocks', inodes' := blocks[v := ZeroBlock()], SetAddr(inodes, i, NDIRECT, v);
            && Core(sb, SetBit(bm, v), blocks', inodes')
            && Rows(blocks', inodes') == Put(Rows(blocks, inodes), i, NDIRECT, v)
  {
    hide Bit, SetBit, ZeroBlock, RowOf;
    var R := Rows(blocks, inodes);
    FreshAbsent(sb, bm, R, v);
    AbsentFrame(blocks, inodes, v, ZeroBlock());
    PutIndirect(blocks[v := ZeroBlock()], inodes, i, v);
    PutOwner(sb, bm, R, i, NDIRECT, v);
  }

  lemma EntryAllocated(sb: Super, bm: seq<bv8>, blocks: seq<Block>, inodes: seq<Inode>,
                       i: nat, k: nat, v: nat)
    requires Core(sb, bm, blocks, inodes) && i < |inodes| && inodes[i].addrs[NDIRECT] != 0
    requires k < NINDIRECT && v < sb.size && !Bit(bm, v)
    ensures var a := inodes[i].addrs[NDIRECT];
            var blocks1 := blocks[v := ZeroBlock()];
            var blocks' := blocks1[a := SetWord(blocks1[a], k, v)];
            && v != a
            && Core(sb, SetBit(bm, v), blocks', inodes)
            && Rows(blocks', inodes) == Put(Rows(blocks, inodes), i, NDIRECT + 1 + k, v)
  {
    hide Bit, SetBit, ZeroBlock, SetWord;
    var R := Rows(blocks, inodes);
    FreshAbsent(sb, bm, R, v);
    assert R[i][NDIRECT] == inodes[i].addrs[NDIRECT];
    AbsentFrame(blocks, inodes, v, ZeroBlock());
    PutEntry(blocks[v := ZeroBlock()], inodes, i, k, v);
    PutOwner(sb, bm, R, i, NDIRECT + 1 + k, v);
  }

  // ---- Growing a file by one block ----

  lemma AllocGrow(row: Row, nb: nat, v: nat)
    requires |row| == NSLOTS && Alloc(row, nb) && nb < MAXFILE && nb != NDIRECT && v != 0
    ensures Alloc(row[Slot(nb) := v], nb + 1)
  {
  }

  lemma AllocGrowIndirect(row: Row, a: nat, v: nat)
    requires |row| == NSLOTS && Alloc(row, NDIRECT) && a != 0 && v != 0
    ensures Alloc(row[NDIRECT := a][Slot(NDIRECT) := v], NDIRECT + 1)
  {
  }
}
