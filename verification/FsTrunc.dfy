// Truncation frees exactly the blocks that the file owns.
module FsTrunc {
  import opened Blocks
  import opened Bitmap
  import opened FsState
  import opened FsAlloc

  // The blocks of one file: marked in use, and all different.
  ghost predicate OwnRow(sb: Super, bm: seq<bv8>, row: Row) {
    && |row| == NSLOTS && sb.size <= 8 * |bm|
    && (forall s | 0 <= s < NSLOTS && row[s] != 0 :: row[s] < sb.size && Bit(bm, row[s]))
    && (forall s, t | 0 <= s < NSLOTS && 0 <= t < NSLOTS && row[s] == row[t] != 0 :: s == t)
  }

  ghost predicate InSlots(row: Row, done: set<nat>, b: nat)
    requires |row| == NSLOTS
  {
    b != 0 && exists s :: s in done && s < NSLOTS && row[s] == b
  }

  // bm is bm0 with the blocks in the slots done freed.
  ghost predicate Freed(sb: Super, bm0: seq<bv8>, bm: seq<bv8>, row: Row, done: set<nat>)
    requires |row| == NSLOTS && sb.size <= 8 * |bm0|
  {
    && |bm| == |bm0|
    && forall b | 0 <= b < sb.size :: Bit(bm, b) <==> Bit(bm0, b) && !InSlots(row, done, b)
  }

  lemma FreeSlot(sb: Super, bm0: seq<bv8>, bm: seq<bv8>, row: Row, done: set<nat>, s: nat)
    requires OwnRow(sb, bm0, row) && Freed(sb, bm0, bm, row, done)
    requires s < NSLOTS && s !in done && row[s] != 0
    ensures Bit(bm, row[s])
    ensures Freed(sb, bm0, ClearBit(bm, row[s]), row, done + {s})
  {
    hide Bit, ClearBit;
    var bm' := ClearBit(bm, row[s]);
    assert !InSlots(row, done, row[s]);
    forall b | 0 <= b < sb.size
      ensures InSlots(row, done + {s}, b) <==> InSlots(row, done, b) || b == row[s]
    {
      if b == row[s] { assert s in done + {s}; }
      if InSlots(row, done, b) {
        var t :| t in done && t < NSLOTS && row[t] == b;
        assert t in done + {s};
      }
    }
  }

  lemma SkipSlot(sb: Super, bm0: seq<bv8>, bm: seq<bv8>, row: Row, done: set<nat>, s: nat)
    requires |row| == NSLOTS && sb.size <= 8 * |bm0| && Freed(sb, bm0, bm, row, done)
    requires s < NSLOTS && row[s] == 0
    ensures Freed(sb, bm0, bm, row, done + {s})
  {
    hide Bit;
    forall b | 0 <= b < sb.size ensures InSlots(row, done + {s}, b) <==> InSlots(row, done, b) {
      if InSlots(row, done, b) {
        var t :| t in done && t < NSLOTS && row[t] == b;
        assert t in done + {s};
      }
    }
  }

  lemma CoreOwnRow(sb: Super, bm: seq<bv8>, blocks: seq<Block>, inodes: seq<Inode>, i: nat)
    requires Core(sb, bm, blocks, inodes) && i < |inodes|
    ensures OwnRow(sb, bm, Rows(blocks, inodes)[i])
    ensures Freed(sb, bm, bm, Rows(blocks, inodes)[i], {})
  {
    hide RowOf, Bit;
  }

  function EmptyInode(typ: nat): Inode {
    Inode(typ, 0, seq(NDIRECT + 1, _ => 0))
  }

  function EmptyRow(): Row { seq(NSLOTS, _ => 0) }

  lemma EmptyInodeRow(blocks: seq<Block>, inodes: seq<Inode>, i: nat)
    requires InodesOk(inodes, |blocks|) && i < |inodes| && |blocks| > 0
    ensures var inodes' := inodes[i := EmptyInode(inodes[i].typ)];
            InodesOk(inodes', |blocks|) && Rows(blocks, inodes') == Rows(blocks, inodes)[i := EmptyRow()]
  {
    var inodes' := inodes[i := EmptyInode(inodes[i].typ)];
    assert RowOf(blocks, inodes'[i]) == EmptyRow();
    assert Rows(blocks, inodes') == Rows(blocks, inodes)[i := EmptyRow()];
  }

  // With all slots done, the file is empty, the others own what they did, and
  // the bits cleared are those of the file's blocks.
  // The bitmap blocks of the blocks in the slots done.
  ghost function BitmapBlocks(sb: Super, row: Row, done: set<nat>): set<nat>
    requires |row| == NSLOTS
  {
    set s | s in done && s < NSLOTS && row[s] != 0 :: row[s] / 4096 + sb.bmapstart
  }

  lemma NoBitmapBlocks(sb: Super, row: Row)
    requires |row| == NSLOTS
    ensures BitmapBlocks(sb, row, {}) == {}
  {
  }

  lemma MoreBitmapBlocks(sb: Super, row: Row, done: set<nat>, s: nat)
    requires |row| == NSLOTS && s < NSLOTS
    ensures BitmapBlocks(sb, row, done + {s}) ==
              BitmapBlocks(sb, row, done) + if row[s] != 0 then {sb.Bblock(row[s])} else {}
  {
    var a, b := BitmapBlocks(sb, row, done + {s}), BitmapBlocks(sb, row, done);
    forall x | x in b ensures x in a {
      var r :| r in done && r < NSLOTS && row[r] != 0 && x == row[r] / 4096 + sb.bmapstart;
      assert r in done + {s};
    }
    if row[s] != 0 { assert s in done + {s} && sb.Bblock(row[s]) in a; }
  }

  lemma IndirectEntries(blocks: seq<Block>, ino: Inode)
    requires InodeOk(ino, |blocks|) && ino.addrs[NDIRECT] != 0
    ensures forall s | 0 <= s < NINDIRECT ::
              RowOf(blocks, ino)[NDIRECT + 1 + s] == WordAt(blocks[ino.addrs[NDIRECT]], s)
  {
    forall s | 0 <= s < NINDIRECT
      ensures RowOf(blocks, ino)[NDIRECT + 1 + s] == WordAt(blocks[ino.addrs[NDIRECT]], s)
    {
      assert RowOf(blocks, ino)[NDIRECT + 1 + s] == RefAt(blocks, ino, NDIRECT + 1 + s);
    }
  }

  // The bitmap blocks of all blocks of a file.
  ghost function FileBitmapBlocks(sb: Super, row: Row): set<nat> {
    set s | 0 <= s < |row| && row[s] != 0 :: row[s] / 4096 + sb.bmapstart
  }

  lemma AllBitmapBlocks(sb: Super, row: Row, done: set<nat>)
    requires |row| == NSLOTS && (forall s | 0 <= s < NSLOTS && row[s] != 0 :: s in done)
    ensures BitmapBlocks(sb, row, done) == FileBitmapBlocks(sb, row)
  {
    var a, b := BitmapBlocks(sb, row, done), FileBitmapBlocks(sb, row);
    forall x | x in b ensures x in a {
      var r :| 0 <= r < |row| && row[r] != 0 && x == row[r] / 4096 + sb.bmapstart;
      assert r in done;
    }
  }

  lemma Truncated(sb: Super, bm0: seq<bv8>, bm: seq<bv8>, blocks: seq<Block>, inodes: seq<Inode>,
                  i: nat, done: set<nat>)
    requires Core(sb, bm0, blocks, inodes) && i < |inodes|
    requires Freed(sb, bm0, bm, Rows(blocks, inodes)[i], done)
    requires forall s | 0 <= s < NSLOTS && Rows(blocks, inodes)[i][s] != 0 :: s in done
    ensures |bm| == |bm0|
    ensures Core(sb, bm, blocks, inodes[i := EmptyInode(inodes[i].typ)])
    ensures Rows(blocks, inodes[i := EmptyInode(inodes[i].typ)]) ==
              Rows(blocks, inodes)[i := EmptyRow()]
    ensures forall b | 0 <= b < sb.size ::
              Bit(bm, b) <==> Bit(bm0, b) && (b == 0 || b !in Rows(blocks, inodes)[i])
  {
    hide RowOf, Bit;
    var R := Rows(blocks, inodes);
    EmptyInodeRow(blocks, inodes, i);
    forall b | 0 <= b < sb.size
      ensures InSlots(R[i], done, b) <==> b != 0 && b in R[i]
    {
      if b != 0 && b in R[i] { var s :| 0 <= s < NSLOTS && R[i][s] == b; assert s in done; }
    }
    assert MetaMarked(sb, bm) by {
      forall b | 0 <= b < sb.nmeta ensures Bit(bm, b) {
        assert forall t | 0 <= t < NSLOTS :: R[i][t] == 0 || R[i][t] != b;
      }
    }
    var R' := R[i := EmptyRow()];
    forall j, s | 0 <= j < |R'| && 0 <= s < NSLOTS && R'[j][s] != 0
      ensures sb.nmeta <= R'[j][s] < sb.size && Bit(bm, R'[j][s])
    {
      assert j != i && R'[j][s] == R[j][s];
      assert forall t | 0 <= t < NSLOTS :: R[i][t] != R[j][s];
    }
  }

  // ---- Free inodes ----

  ghost predicate FreeIsEmpty(inodes: seq<Inode>) {
    forall i | 0 <= i < |inodes| && inodes[i].typ == 0 :: inodes[i].size == 0
  }

  // An inode of size 0 owns nothing, so it may be reset.
  lemma EmptyFile(sb: Super, bm: seq<bv8>, blocks: seq<Block>, inodes: seq<Inode>, i: nat, typ: nat)
    requires Core(sb, bm, blocks, inodes) && NoHoles(Rows(blocks, inodes), inodes) && i < |inodes|
    requires inodes[i].size == 0
    ensures var inodes' := inodes[i := EmptyInode(typ)];
      && Core(sb, bm, blocks, inodes') && Rows(blocks, inodes') == Rows(blocks, inodes)
      && NoHoles(Rows(blocks, inodes'), inodes')
  {
    hide Bit, Unique, Marked, MetaMarked;
    var R, inodes' := Rows(blocks, inodes), inodes[i := EmptyInode(typ)];
    NoBlocks(R[i]);
    assert RowOf(blocks, inodes'[i]) == R[i];
    assert Rows(blocks, inodes') == R;
  }

  lemma NoBlocks(row: Row)
    requires |row| == NSLOTS && Alloc(row, 0)
    ensures row == EmptyRow()
  {
    forall s | 0 <= s < NSLOTS ensures row[s] == 0 {
      assert s < NDIRECT ==> row[Slot(s)] == row[s];
      assert s > NDIRECT ==> row[Slot(s - 1)] == row[s];
    }
  }

  // After itrunc() the file is empty, and setting its type to 0 changes no
  // reference.
  lemma FreedFile(sb: Super, bm: seq<bv8>, blocks: seq<Block>, inodes: seq<Inode>, inodes': seq<Inode>, i: nat)
    requires InodesOk(inodes, |blocks|) && NoHoles(Rows(blocks, inodes), inodes) && i < |inodes|
    requires Core(sb, bm, blocks, inodes') && inodes' == inodes[i := EmptyInode(inodes[i].typ)]
    requires Rows(blocks, inodes') == Rows(blocks, inodes)[i := EmptyRow()]
    ensures NoHoles(Rows(blocks, inodes'), inodes')
    ensures var inodes2 := inodes[i := EmptyInode(0)];
      && Core(sb, bm, blocks, inodes2) && Rows(blocks, inodes2) == Rows(blocks, inodes')
      && NoHoles(Rows(blocks, inodes2), inodes2)
      && forall j | 0 <= j < |inodes| && j != i :: FileBytes(blocks, inodes2, j) == FileBytes(blocks, inodes, j)
  {
    hide Bit, Unique, Marked, MetaMarked, Content;
    assert Alloc(EmptyRow(), 0);
    assert NoHoles(Rows(blocks, inodes'), inodes');
    EmptyFile(sb, bm, blocks, inodes', i, 0);
    assert inodes[i := EmptyInode(0)] == inodes'[i := EmptyInode(0)];
  }
}
