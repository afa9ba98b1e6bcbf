// Disk blocks: 512 bytes, also read as 128 little-endian 32-bit words
// (the log header and the indirect blocks are C structures of uints laid
// over a block's bytes).
module Blocks {

  const BSIZE: nat := 512
  const NWORDS: nat := 128

  type Byte = x: int | 0 <= x < 256
  type Word = x: int | 0 <= x < 0x1_0000_0000
  type Bytes = s: seq<Byte> | |s| == 512 witness seq(512, _ => 0)

  datatype Block = Block(bytes: Bytes)

  function WordAt(b: Block, i: nat): (w: Word)
    requires i < NWORDS
  {
    var b0: int, b1: int, b2: int, b3: int :=
      b.bytes[4 * i], b.bytes[4 * i + 1], b.bytes[4 * i + 2], b.bytes[4 * i + 3];
    b0 + 0x100 * b1 + 0x1_0000 * b2 + 0x100_0000 * b3
  }

  // Byte k of a word.
  function ByteOf(w: Word, k: nat): Byte
    requires k < 4
  {
    if k == 0 then w % 0x100
    else if k == 1 then (w / 0x100) % 0x100
    else if k == 2 then (w / 0x1_0000) % 0x100
    else w / 0x100_0000
  }

  lemma SplitWord(w: Word)
    ensures w == ByteOf(w, 0) as int + 0x100 * (ByteOf(w, 1) as int)
                 + 0x1_0000 * (ByteOf(w, 2) as int) + 0x100_0000 * (ByteOf(w, 3) as int)
  {
    assert w / 0x1_0000 == (w / 0x100) / 0x100;
    assert w / 0x100_0000 == (w / 0x1_0000) / 0x100;
  }

  function SetWord(b: Block, i: nat, w: Word): (r: Block)
    requires i < NWORDS
    ensures WordAt(r, i) == w
    ensures forall j | 0 <= j < NWORDS && j != i :: WordAt(r, j) == WordAt(b, j)
  {
    SplitWord(w);
    Block(b.bytes[4 * i := ByteOf(w, 0)][4 * i + 1 := ByteOf(w, 1)]
                 [4 * i + 2 := ByteOf(w, 2)][4 * i + 3 := ByteOf(w, 3)])
  }

  // Words are little-endian, and writing one leaves all other bytes alone.
  lemma WordBytes(b: Block, i: nat, w: Word, k: nat)
    requires i < 128 && k < 512
    ensures var r := SetWord(b, i, w);
      r.bytes[k] == if k == 4 * i then w % 256
                    else if k == 4 * i + 1 then w / 256 % 256
                    else if k == 4 * i + 2 then w / 65536 % 256
                    else if k == 4 * i + 3 then w / 16777216
                    else b.bytes[k]
  {
  }

  function ZeroBlock(): (b: Block)
    ensures forall j | 0 <= j < NWORDS :: WordAt(b, j) == 0
  {
    Block(seq(512, _ => 0))
  }
}
