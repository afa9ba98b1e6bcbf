// The free bitmap of fs.c: bit b % 8 of byte b / 8 is set when block b is in
// use.
module Bitmap {

  function Mask(k: nat): bv8
    requires k < 8
  {
    if k == 0 then 0x01 else if k == 1 then 0x02 else if k == 2 then 0x04 else if k == 3 then 0x08
    else if k == 4 then 0x10 else if k == 5 then 0x20 else if k == 6 then 0x40 else 0x80
  }

  predicate ByteBit(x: bv8, k: nat)
    requires k < 8
  {
    x & Mask(k) != 0
  }

  lemma ByteSet(x: bv8, k: nat, j: nat)
    requires k < 8 && j < 8
    ensures ByteBit(x | Mask(k), j) <==> j == k || ByteBit(x, j)
  {
  }

  lemma ByteClear(x: bv8, k: nat, j: nat)
    requires k < 8 && j < 8
    ensures ByteBit(x & !Mask(k), j) <==> j != k && ByteBit(x, j)
  {
  }

  predicate Bit(bm: seq<bv8>, b: nat)
    requires b < 8 * |bm|
  {
    ByteBit(bm[b / 8], b % 8)
  }

  // Bit b of the map is bit b % 8, counted from the lowest, of byte b / 8.
  lemma BitIs(bm: seq<bv8>, b: nat)
    requires b < 8 * |bm|
    ensures Bit(bm, b) <==> bm[b / 8] & ((1 as bv8) << (b % 8)) != 0
  {
    MaskIs(b % 8);
  }

  lemma MaskIs(k: nat)
    requires k < 8
    ensures Mask(k) == (1 as bv8) << k
  {
    assert k == 0 || k == 1 || k == 2 || k == 3 || k == 4 || k == 5 || k == 6 || k == 7;
  }

  lemma BitOfUpdate(bm: seq<bv8>, b: nat, x: bv8, c: nat)
    requires b < 8 * |bm| && c < 8 * |bm|
    ensures Bit(bm[b / 8 := x], c) <==> if c / 8 == b / 8 then ByteBit(x, c % 8) else Bit(bm, c)
    ensures c / 8 == b / 8 && c % 8 == b % 8 ==> c == b
  {
  }

  function SetBit(bm: seq<bv8>, b: nat): (r: seq<bv8>)
    requires b < 8 * |bm|
    ensures |r| == |bm|
    ensures forall c | 0 <= c < 8 * |bm| :: Bit(r, c) <==> c == b || Bit(bm, c)
  {
    assert forall c | 0 <= c < 8 * |bm| ::
        Bit(bm[b / 8 := bm[b / 8] | Mask(b % 8)], c) <==> c == b || Bit(bm, c) by {
      hide ByteBit, Mask;
      forall c | 0 <= c < 8 * |bm|
        ensures Bit(bm[b / 8 := bm[b / 8] | Mask(b % 8)], c) <==> c == b || Bit(bm, c)
      {
        ByteSet(bm[b / 8], b % 8, c % 8);
        BitOfUpdate(bm, b, bm[b / 8] | Mask(b % 8), c);
      }
    }
    bm[b / 8 := bm[b / 8] | Mask(b % 8)]
  }

  function ClearBit(bm: seq<bv8>, b: nat): (r: seq<bv8>)
    requires b < 8 * |bm|
    ensures |r| == |bm|
    ensures forall c | 0 <= c < 8 * |bm| :: Bit(r, c) <==> c != b && Bit(bm, c)
  {
    assert forall c | 0 <= c < 8 * |bm| ::
        Bit(bm[b / 8 := bm[b / 8] & !Mask(b % 8)], c) <==> c != b && Bit(bm, c) by {
      hide ByteBit, Mask;
      forall c | 0 <= c < 8 * |bm|
        ensures Bit(bm[b / 8 := bm[b / 8] & !Mask(b % 8)], c) <==> c != b && Bit(bm, c)
      {
        ByteClear(bm[b / 8], b % 8, c % 8);
        BitOfUpdate(bm, b, bm[b / 8] & !Mask(b % 8), c);
      }
    }
    bm[b / 8 := bm[b / 8] & !Mask(b % 8)]
  }
}
