// A disk on which one chunk of filewrite() logs all of MAXOPBLOCKS blocks.
module FullChunk {
  import opened Blocks
  import opened Bitmap
  import opened FsState
  import opened FsAlloc
  import opened FsContent
  import opened FsSpace
  import opened FsTrunc
  import opened Fs

  // Five bitmap blocks, at 58, and 64 blocks before the data.
  const SB := Super(20480, 32, 58, 64)

  // The bitmap bytes whose lowest bit is clear; all other bits are set.
  predicate Gap(k: nat) {
    k == 600 || k == 1200 || k == 1800 || k == 2400
  }

  function AlmostFull(): (bm: seq<bv8>)
    ensures |bm| == 2560
  {
    seq(2560, k requires 0 <= k < 2560 => if Gap(k) then 0xFE else 0xFF)
  }

  // A file of 5633 bytes: all direct blocks, the last with one byte in it.
  function Addrs(): (a: seq<Word>)
    ensures |a| == 13
  {
    seq(13, s requires 0 <= s < 13 => if s < 12 then 64 + s else 0)
  }

  function Files(): seq<Inode> {
    [EmptyInode(0), Inode(2, 5633, Addrs())]
  }

  function Zeroed(): seq<Block> {
    seq(20480, _ => ZeroBlock())
  }

  lemma BitOf(b: nat)
    requires b < 20480
    ensures Bit(AlmostFull(), b) <==> !(b % 8 == 0 && Gap(b / 8))
  {
    hide Gap;
    ByteBits(b % 8);
  }

  lemma ByteBits(k: nat)
    requires k < 8
    ensures ByteBit(0xFF, k) && (ByteBit(0xFE, k) <==> k != 0)
  {
  }

  lemma FileRows()
    ensures InodesOk(Files(), |Zeroed()|)
    ensures var R := Rows(Zeroed(), Files());
      && |R| == 2
      && forall s | 0 <= s < NSLOTS :: R[0][s] == 0 && R[1][s] == if s < 12 then 64 + s else 0
  {
    var blocks := Zeroed();
    assert InodeOk(Files()[0], |blocks|) && InodeOk(Files()[1], |blocks|);
    var R := Rows(blocks, Files());
    forall s | 0 <= s < NSLOTS ensures R[0][s] == 0 && R[1][s] == if s < 12 then 64 + s else 0 {
      assert R[0][s] == RefAt(blocks, Files()[0], s) && R[1][s] == RefAt(blocks, Files()[1], s);
    }
  }

  // The image is one that fs.c keeps, and what little is free is spread.
  lemma ImageOk()
    ensures Core(SB, AlmostFull(), Zeroed(), Files()) && NoHoles(Rows(Zeroed(), Files()), Files())
  {
    hide Bit, Gap, AlmostFull;
    FileRows();
    var R := Rows(Zeroed(), Files());
    forall b | 0 <= b < 76 ensures Bit(AlmostFull(), b) {
      BitOf(b);
      LowBytes(b);
    }
    assert BlocksFor(0) == 0 && BlocksFor(5633) == 12;
    assert Alloc(R[0], 0) && Alloc(R[1], 12);
  }

  lemma LowBytes(b: nat)
    requires b < 76
    ensures !Gap(b / 8)
  {
  }

  lemma ImageSpread()
    ensures FreeAreSpread(SB, AlmostFull()) && FreeCount(SB, AlmostFull()) >= 4
  {
    hide Bit, AlmostFull;
    forall b, c | 0 <= b < SB.size && 0 <= c < SB.size && b != c && !Bit(AlmostFull(), b) && !Bit(AlmostFull(), c)
      ensures SB.Bblock(b) != SB.Bblock(c)
    {
      BitOf(b);
      BitOf(c);
      GapBlock(b);
      GapBlock(c);
    }
    BitOf(4800);
    BitOf(9600);
    BitOf(14400);
    BitOf(19200);
    DistinctInside([4800, 9600, 14400, 19200], FreeSet(SB, AlmostFull()));
  }

  lemma GapBlock(b: nat)
    requires b % 8 == 0 && Gap(b / 8)
    ensures b == 4800 || b == 9600 || b == 14400 || b == 19200
  {
  }

  // 1536 bytes appended to that file: writei() succeeds and logs ten blocks.
  method TenLogged() returns (fs: FileSystem)
    ensures fresh(fs) && fs.Valid() && |fs.logged| == 10
  {
    hide Core, Rows, NoHoles, FreeAreSpread, FreeCount, AlmostFull, Written, NewWereFree;
    ImageOk();
    ImageSpread();
    fs := new FileSystem(SB, AlmostFull(), Zeroed(), Files());
    ghost var src: seq<Byte> := seq(1536, _ => 0);
    var r := fs.Writei(1, seq(1536, _ => 0), 5633);
    ChunkIsTight(SB, AlmostFull(), Zeroed(), Files(), fs.bitmap, fs.blocks, fs.inodes, fs.logged, 1, src);
  }
}
