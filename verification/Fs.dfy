// fs.c's block allocator and inode content, updated in place.
module Fs {
  import opened Blocks
  import opened Bitmap
  import opened FsState
  import opened FsAlloc
  import opened FsContent
  import opened FsSpace
  import opened FsTrunc

  // How a kernel call ends: normally, or in one of fs.c's panics.
  datatype Status = Done | OutOfBlocks | OutOfRange | FreeingFree

  // What readi() and writei() return; devices have their own functions.
  datatype IoResult = Count(n: nat) | Error | Device | Panic(status: Status)

  class FileSystem {
    const sb: Super
    var bitmap: seq<bv8>
    var blocks: seq<Block>
    // The inodes in memory, and their copies on disk.
    var inodes: seq<Inode>
    var dinodes: seq<Inode>
    // The blocks that the current operation has passed to log_write().
    ghost var logged: set<nat>

    ghost predicate Ok()
      reads this
    {
      Core(sb, bitmap, blocks, inodes)
    }

    // Between operations, files have no holes and the disk has the inodes.
    ghost predicate Valid()
      reads this
    {
      Ok() && NoHoles(R(), inodes) && dinodes == inodes
    }

    ghost function R(): seq<Row>
      reads this
      requires InodesOk(inodes, |blocks|)
    {
      Rows(blocks, inodes)
    }

    constructor (sb: Super, bitmap: seq<bv8>, blocks: seq<Block>, inodes: seq<Inode>)
      ensures this.sb == sb && this.bitmap == bitmap && this.blocks == blocks
      ensures this.inodes == inodes && dinodes == inodes && logged == {}
    {
      this.sb, this.bitmap, this.blocks := sb, bitmap, blocks;
      this.inodes, this.dinodes, this.logged := inodes, inodes, {};
    }

    // balloc(): the lowest free block, marked in use and zeroed.
    method Balloc() returns (st: Status, r: nat)
      requires sb.Ok() && |blocks| == sb.size <= 8 * |bitmap|
      modifies this`bitmap, this`blocks, this`logged
      ensures st.Done? || st.OutOfBlocks?
      ensures st.Done? ==>
                && r < sb.size && !Bit(old(bitmap), r)
                && (forall c | 0 <= c < r :: Bit(old(bitmap), c))
                && bitmap == SetBit(old(bitmap), r)
                && blocks == old(blocks)[r := ZeroBlock()]
                && logged == old(logged) + {sb.Bblock(r), r} == old(logged) + {r / 4096 + sb.bmapstart, r}
                && FreeCount(sb, old(bitmap)) == FreeCount(sb, bitmap) + 1
      ensures st.OutOfBlocks? ==>
                && FreeCount(sb, old(bitmap)) == 0
                && (forall c | 0 <= c < sb.size :: Bit(old(bitmap), c))
                && bitmap == old(bitmap) && blocks == old(blocks) && logged == old(logged)
    {
      hide ByteBit, Mask;
      var found;
      found, r := FindFree();
      if !found {
        NoneFree(sb, bitmap);
        return OutOfBlocks, 0;
      }
      OneTaken(sb, bitmap, r);
      var bi := r % BPB;
      var byte := (r - bi) / 8 + bi / 8;
      BitPlace(r - bi, bi);
      bitmap := bitmap[byte := bitmap[byte] | Mask(bi % 8)];
      logged := logged + {sb.Bblock(r)};
      blocks := blocks[r := ZeroBlock()];
      logged := logged + {r};
      st := Done;
    }

    // The outer loop of balloc(): one bitmap block after another.
    method FindFree() returns (found: bool, r: nat)
      requires sb.size <= 8 * |bitmap|
      ensures found ==> r < sb.size && !Bit(bitmap, r) && forall c | 0 <= c < r :: Bit(bitmap, c)
      ensures !found ==> forall c | 0 <= c < sb.size :: Bit(bitmap, c)
    {
      hide Bit;
      var b := 0;
      while b < sb.size
        invariant b % BPB == 0
        invariant forall c | 0 <= c < b && c < sb.size :: Bit(bitmap, c)
      {
        found, r := FindFreeIn(b);
        if found { return; }
        b := b + BPB;
      }
      return false, 0;
    }

    // The inner loop: the bits of one bitmap block.
    method FindFreeIn(b: nat) returns (found: bool, r: nat)
      requires sb.size <= 8 * |bitmap| && b % BPB == 0 && b < sb.size
      requires forall c | 0 <= c < b :: Bit(bitmap, c)
      ensures found ==> r < sb.size && !Bit(bitmap, r) && forall c | 0 <= c < r :: Bit(bitmap, c)
      ensures !found ==> forall c | 0 <= c < b + BPB && c < sb.size :: Bit(bitmap, c)
    {
      hide Bit, ByteBit;
      var bi := 0;
      while bi < BPB && b + bi < sb.size
        invariant 0 <= bi <= BPB && b + bi <= sb.size
        invariant forall c | 0 <= c < b + bi :: Bit(bitmap, c)
      {
        BitAt(bitmap, b, bi);
        if !ByteBit(bitmap[b / 8 + bi / 8], bi % 8) { return true, b + bi; }
        bi := bi + 1;
      }
      return false, 0;
    }

    // bfree(): panics on a block that is free.
    method Bfree(b: nat) returns (st: Status)
      requires b < sb.size <= 8 * |bitmap|
      modifies this`bitmap, this`logged
      ensures st == if Bit(old(bitmap), b) then Done else FreeingFree
      ensures st.Done? ==>
                && bitmap == ClearBit(old(bitmap), b)
                && logged == old(logged) + {sb.Bblock(b)} == old(logged) + {b / 4096 + sb.bmapstart}
      ensures st.FreeingFree? ==> bitmap == old(bitmap) && logged == old(logged)
    {
      hide ByteBit, Mask;
      var bi := b % BPB;
      var m := Mask(bi % 8);
      var byte := (b / BPB) * BSIZE + bi / 8;
      assert byte == b / 8 && bi % 8 == b % 8;
      if !ByteBit(bitmap[byte], bi % 8) { return FreeingFree; }
      bitmap := bitmap[byte := bitmap[byte] & !m];
      logged := logged + {sb.Bblock(b)};
      return Done;
    }

    // bmap(): the disk block of block bn of file i, allocated if it is not
    // there.
    method Bmap(i: nat, bn: nat) returns (st: Status, addr: nat)
      requires Ok() && i < |inodes|
      modifies this`bitmap, this`blocks, this`inodes, this`logged
      ensures st.OutOfRange? <==> bn >= MAXFILE
      ensures st.OutOfBlocks? <==>
                && bn < MAXFILE && old(R())[i][Slot(bn)] == 0
                && FreeCount(sb, old(bitmap)) < Fresh(old(R())[i], bn)
      ensures st.Done? || st.OutOfRange? || st.OutOfBlocks?
      // Where the answer is, there or new.
      ensures st.Done? ==>
                && |inodes| == |old(inodes)| && |inodes[i].addrs| == NDIRECT + 1
                && 0 < addr < |blocks|
                && (bn < NDIRECT ==> addr == inodes[i].addrs[bn])
                && (bn >= NDIRECT ==>
                      var a := inodes[i].addrs[NDIRECT]; 0 < a < |blocks| && addr == WordAt(blocks[a], bn - NDIRECT))
      ensures st.Done? && old(R())[i][Slot(bn)] != 0 ==>
                && addr == old(R())[i][Slot(bn)]
                && bitmap == old(bitmap) && blocks == old(blocks) && inodes == old(inodes)
                && logged == old(logged)
      ensures st.Done? && old(R())[i][Slot(bn)] == 0 ==>
                && Grown(sb, old(bitmap), old(blocks), old(inodes), bitmap, blocks, inodes, i, bn, addr)
                && logged == old(logged) + MapLogged(sb, R()[i], bn, FirstIndirect(old(R())[i], bn))
    {
      hide Core, FreeCount, Unique, Marked, MetaMarked, Bit, RowOf, WordAt;
      CoreShape(sb, bitmap, blocks, inodes);
      if bn < MAXFILE { ReferenceAt(sb, bitmap, blocks, inodes, i, bn); }
      if bn < NDIRECT {
        addr := inodes[i].addrs[bn];
        st := Done;
        if addr == 0 { st, addr := GrowDirect(i, bn); }
      } else if bn - NDIRECT >= NINDIRECT {
        return OutOfRange, 0;
      } else {
        assert inodes[i].addrs[NDIRECT] == R()[i][NDIRECT];
        st, addr := Done, 0;
        if inodes[i].addrs[NDIRECT] == 0 {
          st, addr := GrowFirstIndirect(i, bn);
        } else {
          addr := WordAt(blocks[inodes[i].addrs[NDIRECT]], bn - NDIRECT);
          if addr == 0 { st, addr := GrowIndirect(i, bn); }
        }
      }
      if st.Done? { ReferenceAt(sb, bitmap, blocks, inodes, i, bn); }
    }

    method GrowDirect(i: nat, bn: nat) returns (st: Status, addr: nat)
      requires Ok() && i < |inodes| && bn < NDIRECT && R()[i][Slot(bn)] == 0
      modifies this`bitmap, this`blocks, this`inodes, this`logged
      ensures st.Done? || st.OutOfBlocks?
      ensures st.OutOfBlocks? <==> FreeCount(sb, old(bitmap)) < 1
      ensures st.Done? ==>
                && Grown(sb, old(bitmap), old(blocks), old(inodes), bitmap, blocks, inodes, i, bn, addr)
                && logged == old(logged) + {addr, sb.Bblock(addr)}
    {
      hide Bit, SetBit, ZeroBlock, RowOf, FreeCount;
      st, addr := Balloc();
      if !st.Done? { return; }
      DirectAllocated(sb, old(bitmap), old(blocks), old(inodes), i, bn, addr);
      FreshAbsent(sb, old(bitmap), old(R()), addr);
      inodes := SetAddr(inodes, i, bn, addr);
    }

    method GrowIndirect(i: nat, bn: nat) returns (st: Status, addr: nat)
      requires Ok() && i < |inodes| && NDIRECT <= bn < MAXFILE
      requires R()[i][Slot(bn)] == 0 && R()[i][NDIRECT] != 0
      modifies this`bitmap, this`blocks, this`inodes, this`logged
      ensures st.Done? || st.OutOfBlocks?
      ensures st.OutOfBlocks? <==> FreeCount(sb, old(bitmap)) < 1
      ensures st.Done? ==>
                && Grown(sb, old(bitmap), old(blocks), old(inodes), bitmap, blocks, inodes, i, bn, addr)
                && logged == old(logged) + {addr, sb.Bblock(addr), R()[i][NDIRECT]}
    {
      hide Bit, SetBit, ZeroBlock, SetWord, FreeCount;
      var a := inodes[i].addrs[NDIRECT];
      assert R()[i][NDIRECT] == a;
      st, addr := Balloc();
      if !st.Done? { return; }
      EntryAllocated(sb, old(bitmap), old(blocks), old(inodes), i, bn - NDIRECT, addr);
      FreshAbsent(sb, old(bitmap), old(R()), addr);
      blocks := blocks[a := SetWord(blocks[a], bn - NDIRECT, addr)];
      logged := logged + {a as nat};
    }

    method GrowFirstIndirect(i: nat, bn: nat) returns (st: Status, addr: nat)
      requires Ok() && i < |inodes| && NDIRECT <= bn < MAXFILE
      requires R()[i][Slot(bn)] == 0 && R()[i][NDIRECT] == 0
      modifies this`bitmap, this`blocks, this`inodes, this`logged
      ensures st.Done? || st.OutOfBlocks?
      ensures st.OutOfBlocks? <==> FreeCount(sb, old(bitmap)) < 2
      ensures st.Done? ==>
                && Grown(sb, old(bitmap), old(blocks), old(inodes), bitmap, blocks, inodes, i, bn, addr)
                && logged == old(logged) + {addr, sb.Bblock(addr), R()[i][NDIRECT],
                                            sb.Bblock(R()[i][NDIRECT])}
    {
      hide Bit, SetBit, ZeroBlock, SetWord, FreeCount;
      var a;
      st, a := Balloc();
      if !st.Done? { return st, 0; }
      IndirectAllocated(sb, old(bitmap), old(blocks), old(inodes), i, a);
      FreshAbsent(sb, old(bitmap), old(R()), a);
      assert old(inodes)[i].addrs[NDIRECT] == old(R())[i][NDIRECT];
      inodes := SetAddr(inodes, i, NDIRECT, a);
      ghost var bm1, blocks1, R1 := bitmap, blocks, R();
      st, addr := Balloc();
      if !st.Done? { return; }
      EntryAllocated(sb, bm1, blocks1, inodes, i, bn - NDIRECT, addr);
      FreshAbsent(sb, bm1, R1, addr);
      blocks := blocks[a := SetWord(blocks[a], bn - NDIRECT, addr)];
      logged := logged + {a};
    }

    // iupdate(): write the inode through to disk.
    method Iupdate(i: nat)
      requires i < |inodes| == |dinodes|
      modifies this`dinodes, this`logged
      ensures dinodes == old(dinodes)[i := inodes[i]]
      ensures logged == old(logged) + {sb.Iblock(i)} == old(logged) + {i / 8 + sb.inodestart}
    {
      dinodes := dinodes[i := inodes[i]];
      logged := logged + {sb.Iblock(i)};
    }

    // Bytes [off, off + n) of file i, cut at its end.  Nothing is allocated.
    method Readi(i: nat, off: Word, n: Word) returns (res: IoResult, dst: seq<Byte>)
      requires Valid() && i < |inodes|
      modifies this`bitmap, this`blocks, this`inodes, this`logged
      ensures bitmap == old(bitmap) && blocks == old(blocks) && inodes == old(inodes)
      ensures logged == old(logged)
      ensures res.Device? <==> inodes[i].typ == T_DEV
      ensures res.Error? <==>
                inodes[i].typ != T_DEV && (off > inodes[i].size || off + n >= 0x1_0000_0000)
      ensures !res.Panic?
      ensures res.Count? ==>
                && res.n == (if off + n > inodes[i].size then inodes[i].size - off else n)
                && dst == FileBytes(blocks, inodes, i)[off..off + res.n]
    {
      hide ByteAt, RowOf, Bit, Grown, Alloc;
      dst := [];
      if inodes[i].typ == T_DEV { return Device, []; }
      var size := inodes[i].size;
      if off > size || (off + n) % 0x1_0000_0000 < off { return Error, []; }
      var cnt: nat := n;
      if off + n > size { cnt := size - off; }
      var tot: nat := 0;
      ghost var row := R()[i];
      while tot < cnt
        invariant tot <= cnt && off + cnt <= size
        invariant bitmap == old(bitmap) && blocks == old(blocks) && inodes == old(inodes)
        invariant logged == old(logged)
        invariant |dst| == tot
        invariant forall k {:trigger dst[k]} | 0 <= k < tot :: dst[k] == ByteAt(blocks, row, off + k)
      {
        var pos := off + tot;
        BlocksForIs(size, pos / BSIZE);
        PastEnd(row, BlocksFor(size), pos / BSIZE);
        var st, addr := Bmap(i, pos / BSIZE);
        var m := if cnt - tot < BSIZE - pos % BSIZE then cnt - tot else BSIZE - pos % BSIZE;
        PieceOf(blocks, row, pos, m);
        dst := dst + blocks[addr].bytes[pos % BSIZE..pos % BSIZE + m];
        tot := tot + m;
      }
      ContentSlice(blocks, row, size, off, dst);
      res := Count(cnt);
    }

    // One round of writei()'s loop: map the block, copy m bytes into it, log it.
    method WriteRound(i: nat, src: seq<Byte>, off: nat, tot: nat, size: nat,
                      ghost blocks0: seq<Block>, ghost inodes0: seq<Inode>)
      returns (st: Status, m: nat, ghost extra: set<nat>)
      requires InodesOk(inodes0, |blocks0|) && i < |inodes0| && size == inodes0[i].size
      requires NoHoles(Rows(blocks0, inodes0), inodes0)
      requires Writing(sb, blocks0, inodes0, bitmap, blocks, inodes, i, src, off, tot,
                       NeedBlocks(size, off + tot))
      requires off <= size && tot < |src| && off + |src| <= MAXFILE * BSIZE
      requires tot == 0 || (off + tot) % BSIZE == 0
      modifies this`bitmap, this`blocks, this`inodes, this`logged
      ensures st.Done? || st.OutOfBlocks?
      ensures st.OutOfBlocks? ==>
                var nb := NeedBlocks(size, off + tot);
                && sb.size <= 8 * |old(bitmap)| && (off + tot) / BSIZE == nb
                && FreeCount(sb, old(bitmap)) < NewBlocks(nb, nb + 1)
      ensures st.Done? ==>
                && 0 < m <= |src| - tot && (tot + m == |src| || (off + tot + m) % BSIZE == 0)
                && RoundsDone(off, tot + m) == RoundsDone(off, tot) + 1
                && var nb, nb' := NeedBlocks(size, off + tot), NeedBlocks(size, off + tot + m);
                   && nb <= nb'
                   && Writing(sb, blocks0, inodes0, bitmap, blocks, inodes, i, src, off, tot + m, nb')
                   && (nb == nb' ==> inodes == old(inodes))
                   && KeptRow(old(R())[i], R()[i])
                   && NewWereFree(sb, old(bitmap), old(R())[i], bitmap, R()[i])
                   && BlockLogged(sb, logged, R()[i], (off + tot) / BSIZE, nb)
                   && logged == old(logged) + extra
                                + (if nb < nb' && NDIRECT < nb' then {R()[i][NDIRECT]} else {})
                   && |extra| <= 1 + NewBlocks(nb, nb')
                   && sb.size <= 8 * |old(bitmap)| && sb.size <= 8 * |bitmap|
                   && FreeCount(sb, old(bitmap)) == FreeCount(sb, bitmap) + NewBlocks(nb, nb')
    {
      hide Writing, Core, ByteAt, RowOf, Rows, Bit, Grown, Patch, NeedBlocks, RoundsDone, Alloc, NoHoles,
           BlockLogged, KeptRow, NewBlocks, NewWereFree, FreeCount, Fresh, FirstIndirect, MapLogged;
      ghost var nb := NeedBlocks(size, off + tot);
      WritingFacts(sb, blocks0, inodes0, bitmap, blocks, inodes, i, src, off, tot, nb);
      var bn, at := (off + tot) / BSIZE, (off + tot) % BSIZE;
      m := if |src| - tot < BSIZE - at then |src| - tot else BSIZE - at;
      RoundArithmetic(size, off, tot, |src|, m, bn, at);
      ghost var nb' := NeedBlocks(size, off + tot + m);
      var addr;
      CoreShape(sb, bitmap, blocks, inodes);
      PastEnd(R()[i], nb, bn);
      st, addr := Bmap(i, bn);
      if !st.Done? { return st, 0, {}; }
      WritingRound(sb, blocks0, inodes0, old(bitmap), old(blocks), old(inodes),
                   bitmap, blocks, inodes, i, src, off, tot, nb, nb', bn, at, m, addr);
      extra := RoundLogged(sb, old(logged), R()[i], bn, nb, nb');
      RoundBlockLogged(sb, old(logged), R()[i], bn, nb);
      assert logged + {addr} == old(logged) + (if bn < nb then {addr} else MapLogged(sb, R()[i], bn, bn == NDIRECT));
      blocks := blocks[addr := Patch(blocks[addr], at, src[tot..tot + m])];
      logged := logged + {addr};
    }

    // The loop of writei().
    method WriteLoop(i: nat, src: seq<Byte>, off: nat) returns (st: Status)
      requires Valid() && i < |inodes| && off <= inodes[i].size && off + |src| <= MAXFILE * BSIZE
      modifies this`bitmap, this`blocks, this`inodes, this`logged
      ensures st.Done? || st.OutOfBlocks?
      ensures st.OutOfBlocks? <==> Lacking(sb, old(bitmap), old(inodes)[i].size, off + |src|)
      ensures st.Done? ==>
                var size := old(inodes)[i].size;
                && Writing(sb, old(blocks), old(inodes), bitmap, blocks, inodes, i, src, off, |src|,
                           NeedBlocks(size, off + |src|))
                && (NeedBlocks(size, off + |src|) == BlocksFor(size) ==> inodes == old(inodes))
                && |logged - old(logged)| <= DataLogBound(size, off, |src|)
                && AllLogged(sb, logged, R()[i], off / BSIZE, off / BSIZE + RoundsDone(off, |src|),
                             BlocksFor(size))
                && NewWereFree(sb, old(bitmap), old(R())[i], bitmap, R()[i])
                && Took(sb, old(bitmap), bitmap, size, off + |src|)
    {
      hide Core, ByteAt, RowOf, Rows, Bit, Writing, NeedBlocks, RoundsDone, NewBlocks, Alloc,
           BlockLogged, AllLogged, KeptRow, RoundsLogged, DataLogBound, NewWereFree, FreeCount, Took, Lacking;
      CoreShape(sb, bitmap, blocks, inodes);
      var size, n := inodes[i].size, |src|;
      ghost var blocks0, inodes0, nb0 := blocks, inodes, BlocksFor(size);
      ghost var seen: set<nat>, ind: set<nat> := {}, {};
      var tot := 0;
      NeedStart(size, off);
      WritingStart(sb, bitmap, blocks, inodes, i, src, off);
      RoundsStart(sb, logged, R()[i], off, nb0);
      NothingNew(sb, bitmap, R()[i]);
      TookNone(sb, bitmap, size, off);
      while tot < n
        invariant 0 <= tot <= n && |inodes| == |inodes0| && InodesOk(inodes, |blocks|)
        invariant Writing(sb, blocks0, inodes0, bitmap, blocks, inodes, i, src, off, tot,
                          NeedBlocks(size, off + tot))
        invariant tot == 0 || tot == n || (off + tot) % BSIZE == 0
        invariant nb0 <= NeedBlocks(size, off + tot)
        invariant nb0 == NeedBlocks(size, off + tot) ==> inodes == inodes0
        invariant RoundsLogged(sb, old(logged), logged, seen, ind, R()[i], off / BSIZE, nb0,
                               NeedBlocks(size, off + tot), RoundsDone(off, tot))
        invariant NewWereFree(sb, old(bitmap), old(R())[i], bitmap, R()[i])
        invariant Took(sb, old(bitmap), bitmap, size, off + tot)
      {
        ghost var nb, row, logs, bm := NeedBlocks(size, off + tot), R()[i], logged, bitmap;
        WritingFacts(sb, blocks0, inodes0, bitmap, blocks, inodes, i, src, off, tot, nb);
        var m;
        ghost var extra;
        st, m, extra := WriteRound(i, src, off, tot, size, blocks0, inodes0);
        if !st.Done? {
          LackingRound(sb, old(bitmap), bm, size, off + tot, off + n);
          return;
        }
        ghost var nb' := NeedBlocks(size, off + tot + m);
        WritingFacts(sb, blocks0, inodes0, bitmap, blocks, inodes, i, src, off, tot + m, nb');
        RoundsNext(sb, old(logged), logs, logged, seen, extra, ind, row, R()[i], off, tot, size, nb');
        TookRound(sb, old(bitmap), bm, bitmap, size, off + tot, off + tot + m);
        NewWereFreeTwice(sb, old(bitmap), old(R())[i], bm, row, bitmap, R()[i]);
        seen := seen + extra;
        ind := if nb < nb' && NDIRECT < nb' then {R()[i][NDIRECT]} else ind;
        tot := tot + m;
      }
      RoundsBound(sb, old(logged), logged, seen, ind, R()[i], size, off, n);
      TookIsEnough(sb, old(bitmap), bitmap, size, off + n);
      st := Done;
    }

    // writei(): src written into file i at off.
    method Writei(i: nat, src: seq<Byte>, off: Word) returns (res: IoResult)
      requires Valid() && i < |inodes| && |src| < 0x1_0000_0000
      modifies this`bitmap, this`blocks, this`inodes, this`dinodes, this`logged
      ensures res.Device? <==> old(inodes)[i].typ == T_DEV
      ensures res.Error? <==>
                && old(inodes)[i].typ != T_DEV
                && (off > old(inodes)[i].size || off + |src| > MAXFILE * BSIZE)
      ensures res.Device? || res.Error? ==>
                && bitmap == old(bitmap) && blocks == old(blocks) && inodes == old(inodes)
                && dinodes == old(dinodes) && logged == old(logged)
      ensures res.Panic? ==> res.status.OutOfBlocks?
      ensures res.Panic? <==>
                && old(inodes)[i].typ != T_DEV && off <= old(inodes)[i].size && off + |src| <= MAXFILE * BSIZE
                && Lacking(sb, old(bitmap), old(inodes)[i].size, off + |src|)
      ensures res.Count? ==>
                && res.n == |src| && Valid() && |inodes| == |old(inodes)|
                && Written(sb, old(blocks), old(inodes), old(logged), blocks, inodes, logged, i, src, off)
                && NewWereFree(sb, old(bitmap), old(R())[i], bitmap, R()[i])
                && Took(sb, old(bitmap), bitmap, old(inodes)[i].size, off + |src|)
    {
      hide Core, Rows, NoHoles, Written, NewWereFree, Lacking, Took;
      CoreShape(sb, bitmap, blocks, inodes);
      var size, n := inodes[i].size, |src|;
      if inodes[i].typ == T_DEV { return Device; }
      if off > size || (off + n) % 0x1_0000_0000 < off { return Error; }
      if off + n > MAXFILE * BSIZE { return Error; }
      var st := WriteChecked(i, src, off);
      if !st.Done? { return Panic(st); }
      res := Count(n);
    }

    // writei() after its checks.
    method WriteChecked(i: nat, src: seq<Byte>, off: nat) returns (st: Status)
      requires Valid() && i < |inodes| && off <= inodes[i].size && off + |src| <= MAXFILE * BSIZE
      modifies this`bitmap, this`blocks, this`inodes, this`dinodes, this`logged
      ensures st.Done? || st.OutOfBlocks?
      ensures st.OutOfBlocks? <==> Lacking(sb, old(bitmap), old(inodes)[i].size, off + |src|)
      ensures st.Done? ==>
                && Valid() && |inodes| == |old(inodes)|
                && Written(sb, old(blocks), old(inodes), old(logged), blocks, inodes, logged, i, src, off)
                && NewWereFree(sb, old(bitmap), old(R())[i], bitmap, R()[i])
                && Took(sb, old(bitmap), bitmap, old(inodes)[i].size, off + |src|)
    {
      hide Core, ByteAt, RowOf, Rows, Bit, Writing, RoundsDone, NeedBlocks, NewBlocks, Alloc, NoHoles,
           FreeCount, Took, Lacking, SameButSpliced, DataLogBound, BlockLogged, AllLogged, Written, NewWereFree;
      CoreShape(sb, bitmap, blocks, inodes);
      var size, n := inodes[i].size, |src|;
      ghost var blocks0, inodes0 := blocks, inodes;
      st := WriteLoop(i, src, off);
      if !st.Done? { return; }
      ghost var nb := NeedBlocks(size, off + n);
      WritingFacts(sb, blocks0, inodes0, bitmap, blocks, inodes, i, src, off, n, nb);
      if off + n <= size {
        NeedStart(size, off + n);
        assert inodes == dinodes;
      }
      ghost var mid, inodes1 := logged, inodes;
      ExtendTo(i, n, off + n);
      assert dinodes == inodes;
      WriteFinished(sb, blocks0, inodes0, old(logged), mid, bitmap, blocks, inodes1, inodes, logged, i, src, off);
    }

    // The end of writei(): the new size, if the file has grown.
    method ExtendTo(i: nat, n: nat, end: nat)
      requires i < |inodes| == |dinodes|
      modifies this`inodes, this`dinodes, this`logged
      ensures var grown := n > 0 && end > old(inodes)[i].size;
        && inodes == (if grown then old(inodes)[i := old(inodes)[i].(size := end)] else old(inodes))
        && dinodes == (if grown then old(dinodes)[i := inodes[i]] else old(dinodes))
        && logged == old(logged) + (if grown then {sb.Iblock(i)} else {})
    {
      if n > 0 && end > inodes[i].size {
        inodes := inodes[i := inodes[i].(size := end)];
        Iupdate(i);
      }
    }

    // Free the block in slot s of a file, if there is one.
    method FreeSlotBlock(b: nat, ghost s: nat, ghost bm0: seq<bv8>, ghost row: Row, ghost done: set<nat>)
      returns (st: Status)
      requires OwnRow(sb, bm0, row) && Freed(sb, bm0, bitmap, row, done)
      requires s < NSLOTS && s !in done && b == row[s]
      modifies this`bitmap, this`logged
      ensures st.Done? && Freed(sb, bm0, bitmap, row, done + {s})
      ensures logged == old(logged) + if b != 0 then {sb.Bblock(b)} else {}
    {
      hide Bit, ClearBit;
      st := Done;
      if b != 0 {
        FreeSlot(sb, bm0, bitmap, row, done, s);
        st := Bfree(b);
      } else {
        SkipSlot(sb, bm0, bitmap, row, done, s);
      }
    }

    // itrunc()'s loop over the indirect block.
    method FreeEntries(a: Block, ghost bm0: seq<bv8>, ghost row: Row, ghost done: set<nat>, ghost base: set<nat>)
      returns (ghost done': set<nat>)
      requires OwnRow(sb, bm0, row) && Freed(sb, bm0, bitmap, row, done)
      requires forall s | 0 <= s < NINDIRECT :: row[NDIRECT + 1 + s] == WordAt(a, s)
      requires (forall s | s in done :: s < NDIRECT) && logged == base + BitmapBlocks(sb, row, done)
      modifies this`bitmap, this`logged
      ensures Freed(sb, bm0, bitmap, row, done')
      ensures forall s :: s in done' <==> s in done || NDIRECT < s < NSLOTS
      ensures logged == base + BitmapBlocks(sb, row, done')
    {
      hide Freed, BitmapBlocks, Bit;
      done' := done;
      var j := 0;
      while j < NINDIRECT
        invariant 0 <= j <= NINDIRECT && Freed(sb, bm0, bitmap, row, done')
        invariant forall s :: s in done' <==> s in done || NDIRECT < s < NDIRECT + 1 + j
        invariant logged == base + BitmapBlocks(sb, row, done')
      {
        var st := FreeSlotBlock(WordAt(a, j), NDIRECT + 1 + j, bm0, row, done');
        MoreBitmapBlocks(sb, row, done', NDIRECT + 1 + j);
        done' := done' + {NDIRECT + 1 + j};
        j := j + 1;
      }
    }

    // itrunc(): every block of file i is freed, and no other; bfree() never
    // panics.
    method Itrunc(i: nat) returns (st: Status)
      requires Ok() && i < |inodes| == |dinodes|
      modifies this`bitmap, this`inodes, this`dinodes, this`logged
      ensures st.Done?
      ensures Ok() && |inodes| == |old(inodes)| && |bitmap| == |old(bitmap)|
      ensures inodes == old(inodes)[i := EmptyInode(old(inodes)[i].typ)]
      ensures dinodes == old(dinodes)[i := inodes[i]]
      ensures R() == old(R())[i := EmptyRow()]
      ensures forall b | 0 <= b < sb.size ::
                Bit(bitmap, b) <==> Bit(old(bitmap), b) && (b == 0 || b !in old(R())[i])
      ensures inodes[i].size == 0 && forall s | 0 <= s <= NDIRECT :: inodes[i].addrs[s] == 0
      ensures logged == old(logged) + FileBitmapBlocks(sb, old(R())[i]) + {sb.Iblock(i)}
    {
      hide Bit, ClearBit, Unique, Marked, MetaMarked, Freed, OwnRow, BitmapBlocks, FileBitmapBlocks;
      ghost var bm0, row := bitmap, R()[i];
      CoreOwnRow(sb, bitmap, blocks, inodes, i);
      var ino := inodes[i];
      ghost var done: set<nat> := {};
      NoBitmapBlocks(sb, row);
      var k := 0;
      while k < NDIRECT
        invariant 0 <= k <= NDIRECT && |ino.addrs| == NDIRECT + 1 && ino.typ == old(inodes)[i].typ
        invariant forall s | 0 <= s <= NDIRECT :: ino.addrs[s] == if s < k then 0 else row[s]
        invariant inodes == old(inodes)[i := ino] && dinodes == old(dinodes)
        invariant Freed(sb, bm0, bitmap, row, done) && forall s :: s in done <==> 0 <= s < k
        invariant logged == old(logged) + BitmapBlocks(sb, row, done)
      {
        st := FreeSlotBlock(ino.addrs[k], k, bm0, row, done);
        MoreBitmapBlocks(sb, row, done, k);
        done := done + {k};
        ino := ino.(addrs := ino.addrs[k := 0]);
        inodes := inodes[i := ino];
        k := k + 1;
      }
      if ino.addrs[NDIRECT] != 0 {
        IndirectEntries(blocks, old(inodes)[i]);
        done := FreeEntries(blocks[ino.addrs[NDIRECT]], bm0, row, done, old(logged));
        st := FreeSlotBlock(ino.addrs[NDIRECT], NDIRECT, bm0, row, done);
        MoreBitmapBlocks(sb, row, done, NDIRECT);
        done := done + {NDIRECT};
        ino := ino.(addrs := ino.addrs[NDIRECT := 0]);
      }
      Truncated(sb, bm0, bitmap, blocks, old(inodes), i, done);
      AllBitmapBlocks(sb, row, done);
      ino := ino.(size := 0);
      inodes := inodes[i := ino];
      assert ino == EmptyInode(ino.typ) && inodes == old(inodes)[i := EmptyInode(ino.typ)];
      Iupdate(i);
      st := Done;
    }

    // ialloc(): the first free inode becomes an empty file; 0 stands for the
    // panic when there is none.
    method Ialloc(typ: nat) returns (inum: nat)
      requires Valid() && FreeIsEmpty(inodes) && typ > 0
      modifies this`inodes, this`dinodes, this`logged
      ensures Valid() && FreeIsEmpty(inodes) && R() == old(R())
      ensures inum == 0 ==>
                inodes == old(inodes) && logged == old(logged) && forall k | 1 <= k < |inodes| :: inodes[k].typ != 0
      ensures inum != 0 ==>
                && inum < |inodes| && old(inodes)[inum].typ == 0
                && (forall k | 1 <= k < inum :: old(inodes)[k].typ != 0)
                && inodes == old(inodes)[inum := EmptyInode(typ)]
                && FileBytes(blocks, inodes, inum) == []
                && inodes[inum].typ == typ && inodes[inum].size == 0
                && logged == old(logged) + {inum / 8 + sb.inodestart}
    {
      hide Core, Bit;
      CoreShape(sb, bitmap, blocks, inodes);
      inum := 1;
      while inum < |inodes|
        invariant 1 <= inum && forall k | 1 <= k < inum && k < |inodes| :: inodes[k].typ != 0
      {
        if dinodes[inum].typ == 0 {
          EmptyFile(sb, bitmap, blocks, inodes, inum, typ);
          dinodes := dinodes[inum := EmptyInode(typ)];
          inodes := inodes[inum := EmptyInode(typ)];
          logged := logged + {sb.Iblock(inum)};
          return;
        }
        inum := inum + 1;
      }
      inum := 0;
    }

    // What iput() does to an inode without links or other references.
    method FreeInode(i: nat)
      requires Valid() && FreeIsEmpty(inodes) && i < |inodes|
      modifies this`bitmap, this`inodes, this`dinodes, this`logged
      ensures Valid() && FreeIsEmpty(inodes) && inodes == old(inodes)[i := EmptyInode(0)]
      ensures forall j | 0 <= j < |inodes| && j != i ::
                FileBytes(blocks, inodes, j) == FileBytes(blocks, old(inodes), j)
    {
      hide Bit, Unique, Marked, MetaMarked;
      var st := Itrunc(i);
      FreedFile(sb, bitmap, blocks, old(inodes), inodes, i);
      inodes := inodes[i := inodes[i].(typ := 0)];
      assert inodes == old(inodes)[i := EmptyInode(0)];
      Iupdate(i);
      assert dinodes == inodes;
    }

    // filewrite() on an inode: chunks small enough for one operation each.
    // ops lists, operation by operation, the blocks that were logged.  All of
    // src is written, or, past MAXFILE blocks, the whole chunks that fit.
    method Filewrite(i: nat, off: Word, src: seq<Byte>)
      returns (res: IoResult, off': nat, ghost ops: seq<set<nat>>)
      requires Valid() && i < |inodes| && |src| < 0x8000_0000
      modifies this`bitmap, this`blocks, this`inodes, this`dinodes, this`logged
      ensures forall k | 0 <= k < |ops| :: |ops[k]| <= 10
      ensures src == [] ==> res == Count(0)
      ensures res.Device? <==> src != [] && old(inodes)[i].typ == T_DEV
      ensures res.Error? <==>
                && src != [] && old(inodes)[i].typ != T_DEV && !res.Panic?
                && (off > old(inodes)[i].size || off + |src| > MAXFILE * BSIZE)
      ensures res.Panic? ==> res.status.OutOfBlocks?
      ensures res.Panic? <==>
                && src != [] && old(inodes)[i].typ != T_DEV && off <= old(inodes)[i].size
                && Lacking(sb, old(bitmap), old(inodes)[i].size, off + Fitting(off, |src|))
      ensures !res.Panic? ==> Valid() && |inodes| == |old(inodes)|
      ensures !res.Panic? && (src == [] || old(inodes)[i].typ == T_DEV || off > old(inodes)[i].size) ==>
                off' == off && blocks == old(blocks) && inodes == old(inodes) && bitmap == old(bitmap)
      ensures !res.Panic? && src != [] && old(inodes)[i].typ != T_DEV && off <= old(inodes)[i].size ==>
                var w := Fitting(off, |src|);
                && w <= |src| && off' == off + w
                && SameButSpliced(old(blocks), old(inodes), blocks, inodes, i, src[..w], off)
                && w == (if off + |src| <= 71680 then |src| else (71680 - off) / 1536 * 1536)
      ensures res.Count? ==> res.n == |src| && |ops| == (|src| + 1535) / 1536
    {
      hide Core, Rows, NoHoles, LogBound, Written, Fitting, Took, Lacking, SameButSpliced, Chunked, NewWereFree, Chunks;
      CoreShape(sb, bitmap, blocks, inodes);
      ChunksOf(|src|);
      FittingNumbers(off, |src|);
      var max := ((10 - 1 - 1 - 2) / 2) * 512;
      var w, n := 0, |src|;
      off', ops := off, [];
      ghost var bm0, blocks0, inodes0 := bitmap, blocks, inodes;
      if off <= inodes[i].size { ChunkedStart(sb, bitmap, blocks, inodes, i, src, off); }
      while w < n
        invariant 0 <= w <= n && off' == off + w && (w < n ==> w % CHUNK == 0)
        invariant Valid() && InodesOk(inodes, |blocks|) && |inodes| == |inodes0|
        invariant inodes[i].typ == inodes0[i].typ
        invariant w == 0 ==> blocks == blocks0 && inodes == inodes0 && bitmap == bm0
        invariant w > 0 ==> off <= inodes0[i].size && inodes[i].typ != T_DEV
        invariant off <= inodes0[i].size ==>
                    Chunked(sb, bm0, blocks0, inodes0, bitmap, blocks, inodes, i, src, off, w)
        invariant forall k | 0 <= k < |ops| :: |ops[k]| <= 10
        invariant |ops| == Chunks(w)
      {
        var n1 := n - w;
        if n1 > max { n1 := max; }
        logged := {};
        ghost var bm1, blocks1, inodes1 := bitmap, blocks, inodes;
        CoreShape(sb, bitmap, blocks, inodes);
        if off <= inodes0[i].size {
          ChunkedFacts(sb, bm0, blocks0, inodes0, bitmap, blocks, inodes, i, src, off, w);
          ChunkFits(inodes[i].size, off', n1);
          NextChunk(off, n, w, n1);
        }
        var r := Writei(i, src[w..w + n1], off');
        if r.Device? { return Device, off', ops; }
        if r.Error? { return Error, off', ops; }
        if r.Panic? {
          ChunkedLacks(sb, bm0, blocks0, inodes0, bm1, blocks1, inodes1, i, src, off, w, n1);
          return r, off', ops;
        }
        CoreShape(sb, bitmap, blocks, inodes);
        ChunkedNext(sb, bm0, blocks0, inodes0, bm1, blocks1, inodes1, bitmap, blocks, inodes,
                    i, src, off, w, n1, logged);
        WrittenFacts(sb, blocks1, inodes1, blocks, inodes, logged, i, src[w..w + n1], off');
        ops := ops + [logged];
        off' := off' + r.n;
        w := w + r.n;
      }
      if n > 0 { FilledAll(sb, bm0, blocks0, inodes0, bitmap, blocks, inodes, i, src, off); }
      res := Count(n);
    }
  }
}
