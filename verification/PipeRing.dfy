// The ring buffer of pipe.c, with its 32-bit counters that wrap around.
module PipeRing {
  import opened Blocks

  const PIPESIZE: nat := 512
  const WRAP: nat := 0x1_0000_0000

  // The pipe's buffer; nread and nwrite count bytes modulo 2^32.
  datatype Ring = Ring(data: seq<Byte>, nread: Word, nwrite: Word)

  // nwrite - nread in uint arithmetic.
  function Count(r: Ring): nat {
    (r.nwrite - r.nread) % WRAP
  }

  predicate Ok(r: Ring) {
    |r.data| == PIPESIZE && Count(r) <= PIPESIZE
  }

  // pipewrite()'s test.
  predicate Full(r: Ring) {
    r.nwrite == (r.nread + PIPESIZE) % WRAP
  }

  predicate Empty(r: Ring) {
    r.nread == r.nwrite
  }

  lemma CountTests(r: Ring)
    ensures Full(r) <==> Count(r) == PIPESIZE
    ensures Empty(r) <==> Count(r) == 0
  {
  }

  // The bytes in the pipe, oldest first.
  function Stored(r: Ring): (s: seq<Byte>)
    requires |r.data| == PIPESIZE
    ensures |s| == Count(r)
  {
    seq(Count(r), k requires 0 <= k < Count(r) => r.data[(r.nread + k) % PIPESIZE])
  }

  function PutByte(r: Ring, x: Byte): Ring
    requires |r.data| == PIPESIZE
  {
    Ring(r.data[r.nwrite % PIPESIZE := x], r.nread, (r.nwrite + 1) % WRAP)
  }

  function Drop(r: Ring, m: nat): Ring {
    Ring(r.data, (r.nread + m) % WRAP, r.nwrite)
  }

  function PutAll(r: Ring, xs: seq<Byte>): (q: Ring)
    requires |r.data| == PIPESIZE
    ensures |q.data| == PIPESIZE && q.nread == r.nread
  {
    if xs == [] then r else PutByte(PutAll(r, xs[..|xs| - 1]), xs[|xs| - 1])
  }

  // Counters that have wrapped index the same byte.
  lemma WrappedIndex(w: Word, k: nat)
    ensures ((w + k) % WRAP) % PIPESIZE == (w + k) % PIPESIZE
  {
  }

  lemma PutCount(r: Ring, x: Byte)
    requires |r.data| == PIPESIZE && Count(r) < PIPESIZE
    ensures Count(PutByte(r, x)) == Count(r) + 1
    ensures r.nwrite % PIPESIZE == (r.nread + Count(r)) % PIPESIZE
  {
    WrappedIndex(r.nread, Count(r));
    WrapSum(r.nread, r.nwrite);
  }

  lemma WrapSum(v: Word, w: Word)
    ensures (v + (w - v) % WRAP) % WRAP == w
    ensures (w - v) % WRAP < WRAP - 1 ==> ((w + 1) % WRAP - v) % WRAP == (w - v) % WRAP + 1
  {
  }

  lemma ApartModulo(w: nat, j: nat, k: nat)
    requires j < k < j + PIPESIZE
    ensures (w + j) % PIPESIZE != (w + k) % PIPESIZE
  {
  }

  lemma PutStored(r: Ring, x: Byte)
    requires |r.data| == PIPESIZE && Count(r) < PIPESIZE
    ensures Stored(PutByte(r, x)) == Stored(r) + [x]
  {
    PutCount(r, x);
    var q := PutByte(r, x);
    forall k | 0 <= k < Count(q) ensures Stored(q)[k] == (Stored(r) + [x])[k] {
      if k < Count(r) { ApartModulo(r.nread, k, Count(r)); }
    }
  }

  lemma DropCount(r: Ring, m: nat)
    requires m <= Count(r)
    ensures Count(Drop(r, m)) == Count(r) - m
  {
    WrapDifference(r.nread, r.nwrite, m);
  }

  lemma WrapDifference(v: Word, w: Word, m: nat)
    requires m <= (w - v) % WRAP
    ensures (w - (v + m) % WRAP) % WRAP == (w - v) % WRAP - m
  {
    var d := (w - v) % WRAP;
    assert d == w - v || d == w - v + WRAP;
    assert (v + m) % WRAP == v + m || (v + m) % WRAP == v + m - WRAP;
  }

  lemma DropNext(r: Ring, m: nat)
    ensures Drop(Drop(r, m), 1) == Drop(r, m + 1)
  {
    assert ((r.nread + m) % WRAP + 1) % WRAP == (r.nread + m + 1) % WRAP;
  }

  lemma DropStored(r: Ring, m: nat)
    requires Ok(r) && m <= Count(r)
    ensures Ok(Drop(r, m)) && Stored(Drop(r, m)) == Stored(r)[m..]
  {
    var q := Drop(r, m);
    DropCount(r, m);
    forall k | 0 <= k < Count(q) ensures Stored(q)[k] == Stored(r)[m..][k] {
      SameIndex(r.nread, m, k);
    }
  }

  lemma SameIndex(w: Word, m: nat, k: nat)
    ensures ((w + m) % WRAP + k) % PIPESIZE == (w + m + k) % PIPESIZE
  {
    WrappedIndex(w, m);
  }

  lemma {:induction false} PutAllStored(r: Ring, xs: seq<Byte>)
    requires |r.data| == PIPESIZE && Count(r) + |xs| <= PIPESIZE
    ensures Ok(PutAll(r, xs)) && Stored(PutAll(r, xs)) == Stored(r) + xs
  {
    if xs == [] {
      assert Stored(r) + xs == Stored(r);
    } else {
      var q := PutAll(r, xs[..|xs| - 1]);
      PutAllStored(r, xs[..|xs| - 1]);
      PutCount(q, xs[|xs| - 1]);
      PutStored(q, xs[|xs| - 1]);
      assert xs == xs[..|xs| - 1] + [xs[|xs| - 1]];
    }
  }

  function Min(a: nat, b: nat): nat {
    if a < b then a else b
  }

  class Pipe {
    const data: array<Byte>
    var nread: Word
    var nwrite: Word

    function Value(): Ring
      reads this, data
    {
      Ring(data[..], nread, nwrite)
    }

    ghost predicate Valid()
      reads this, data
    {
      data.Length == PIPESIZE && Ok(Value())
    }

    constructor ()
      ensures Valid() && fresh(data) && Stored(Value()) == []
    {
      data := new Byte[PIPESIZE](_ => 0);
      nread, nwrite := 0, 0;
    }

    // pipewrite()'s loops from byte i until the pipe is full or all of addr
    // is in it.
    method Write(addr: seq<Byte>, i: nat) returns (j: nat)
      requires Valid() && i <= |addr|
      modifies this, data
      ensures Valid() && i <= j <= |addr| && j == i + Min(|addr| - i, PIPESIZE - Count(old(Value())))
      ensures Value() == PutAll(old(Value()), addr[i..j])
      ensures Stored(Value()) == old(Stored(Value())) + addr[i..j]
      ensures j < |addr| ==> Full(Value())
    {
      hide Stored, Count;
      ghost var r := Value();
      j := i;
      assert addr[i..j] == [];
      while j < |addr|
        invariant i <= j <= |addr| && Valid() && Count(r) + (j - i) <= PIPESIZE
        invariant Value() == PutAll(r, addr[i..j])
      {
        PutAllStored(r, addr[i..j]);
        CountTests(Value());
        if nwrite == (nread + PIPESIZE) % WRAP { break; }
        data[nwrite % PIPESIZE] := addr[j];
        nwrite := (nwrite + 1) % WRAP;
        assert addr[i..j + 1][..|addr[i..j + 1]| - 1] == addr[i..j];
        j := j + 1;
        PutAllStored(r, addr[i..j]);
      }
      PutAllStored(r, addr[i..j]);
      CountTests(Value());
    }

    // piperead()'s copying loop.
    method Read(n: nat) returns (addr: seq<Byte>)
      requires Valid()
      modifies this
      ensures Valid() && Value() == Drop(old(Value()), |addr|)
      ensures addr == old(Stored(Value()))[..Min(n, Count(old(Value())))]
      ensures Stored(Value()) == old(Stored(Value()))[|addr|..]
    {
      hide Count, Full, Empty, Stored, Drop;
      ghost var r := Value();
      addr := [];
      NothingDropped(r);
      while |addr| < n
        invariant |addr| <= n && |addr| <= Count(r) && Valid()
        invariant Value() == Drop(r, |addr|) && addr == Stored(r)[..|addr|]
      {
        DropStored(r, |addr|);
        DropCount(r, |addr|);
        CountTests(Value());
        FirstStored(Value());
        if nread == nwrite { break; }
        assert Stored(Value())[0] == Stored(r)[|addr|];
        DropNext(r, |addr|);
        addr := addr + [data[nread % PIPESIZE]];
        nread := (nread + 1) % WRAP;
        DropStored(r, |addr|);
      }
      DropStored(r, |addr|);
    }
  }

  lemma NothingDropped(r: Ring)
    ensures Drop(r, 0) == r
  {
  }

  // The next byte to read.
  lemma FirstStored(r: Ring)
    requires Ok(r)
    ensures Empty(r) <==> r.nread == r.nwrite
    ensures !Empty(r) ==> Stored(r) != [] && Stored(r)[0] == r.data[r.nread % PIPESIZE]
    ensures Drop(r, 1) == Ring(r.data, (r.nread + 1) % WRAP, r.nwrite)
    ensures |Stored(r)| == Count(r)
  {
    CountTests(r);
  }
}
