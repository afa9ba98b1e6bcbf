// umalloc.c: the Kernighan and Ritchie allocator, its free list a ring of
// headers in memory.
module Umalloc {
  import opened FreeList

  // The invariant of the heap, and what each change does to it.
  ghost predicate HeapOk(mem: seq<Header>, fl: seq<Chunk>, alloc: map<nat, nat>, owned: set<nat>) {
    && Ordered(fl, |mem|)
    && AllocOk(mem, alloc)
    && AllApart(fl, alloc)
    && Tiled(fl, alloc, owned)
    && (forall u | u in owned :: u < |mem|)
  }

  // Memory that belongs to the program is not written.
  ghost predicate Untouched(mem: seq<Header>, mem': seq<Header>, alloc: map<nat, nat>) {
    |mem| <= |mem'| && forall u | 0 <= u < |mem| && InAlloc(alloc, u) :: mem'[u] == mem[u]
  }

  // A node of the ring lies outside every allocated block.
  lemma NodeNotAlloc(mem: seq<Header>, fl: seq<Chunk>, alloc: map<nat, nat>, j: nat)
    requires Ordered(fl, |mem|) && AllocOk(mem, alloc) && AllApart(fl, alloc) && j <= |fl|
    ensures !InAlloc(alloc, Node(fl, j))
  {
    forall a | a in alloc ensures !(a <= Node(fl, j) < a + alloc[a]) {
      assert Apart(fl, a, alloc[a]);
    }
  }

  lemma AllocMinus(mem: seq<Header>, alloc: map<nat, nat>, a: nat, u: nat)
    requires AllocOk(mem, alloc) && a in alloc
    ensures InAlloc(alloc - {a}, u) <==> InAlloc(alloc, u) && !(a <= u < a + alloc[a])
  {
    if InAlloc(alloc, u) && !(a <= u < a + alloc[a]) {
      var b :| b in alloc && b <= u < b + alloc[b];
      assert b in alloc - {a};
    }
  }

  lemma {:induction false} CountBelow(fl: seq<Chunk>, lim: nat, a: nat, n: nat) returns (k: nat)
    requires Ordered(fl, lim) && Apart(fl, a, n) && 0 < n
    ensures Below(fl, a, k)
  {
    if fl == [] { return 0; }
    var last := |fl| - 1;
    if a < fl[last].addr {
      k := CountBelow(fl[..last], lim, a, n);
    } else {
      k := |fl|;
      assert forall i | 0 <= i < last :: fl[i].addr + fl[i].size < fl[last].addr;
    }
  }

  // free() writes the headers of p and of the freed block, and no other.
  lemma FreedMemWrites(mem: seq<Header>, p: nat, a: nat, u: nat)
    requires p < |mem| && a < |mem| && mem[p].ptr < |mem| && u < |mem|
    ensures |FreedMem(mem, p, a)| == |mem|
    ensures u != p && u != a ==> FreedMem(mem, p, a)[u] == mem[u]
  {
  }

  lemma FreedHeap(mem: seq<Header>, fl: seq<Chunk>, alloc: map<nat, nat>, owned: set<nat>, k: nat, a: nat)
    requires HeapOk(mem, fl, alloc, owned) && Linked(mem, fl)
    requires a in alloc && Below(fl, a, k)
    ensures Node(fl, k) < |mem| && mem[Node(fl, k)].ptr < |mem| && a < |mem|
    ensures var mem', fl' := FreedMem(mem, Node(fl, k), a), Inserted(fl, k, a, alloc[a]);
            && HeapOk(mem', fl', alloc - {a}, owned) && Linked(mem', fl')
            && Untouched(mem, mem', alloc - {a})
  {
    hide InFree, InAlloc, Inserted, FreedMem, LinkAt;
    var n := alloc[a];
    FreedLinked(mem, fl, k, a, n);
    InsertedOrdered(fl, |mem|, k, a, n);
    NodeNotAlloc(mem, fl, alloc, k);
    var p, alloc' := Node(fl, k), alloc - {a};
    var mem', fl' := FreedMem(mem, p, a), Inserted(fl, k, a, n);
    FreedMemWrites(mem, p, a, a);
    forall b | b in alloc' ensures mem'[b].size == alloc'[b] && Apart(fl', b, alloc'[b]) {
      InAllocSelf(alloc, b);
      FreedMemWrites(mem, p, a, b);
      InsertedApart(fl, k, a, n, b, alloc[b]);
    }
    forall u: nat ensures u in owned <==> InFree(fl', u) || InAlloc(alloc', u) {
      InsertedCovers(fl, k, a, n, u);
      AllocMinus(mem, alloc, a, u);
      if a <= u < a + n { InAllocIn(alloc, a, u); }
    }
    forall u | 0 <= u < |mem| && InAlloc(alloc', u) ensures mem'[u] == mem[u] {
      AllocMinus(mem, alloc, a, u);
      FreedMemWrites(mem, p, a, u);
    }
  }

  lemma InAllocIn(alloc: map<nat, nat>, a: nat, u: nat)
    requires a in alloc && a <= u < a + alloc[a]
    ensures InAlloc(alloc, u)
  {
  }

  lemma InAllocSelf(alloc: map<nat, nat>, a: nat)
    requires a in alloc
    ensures alloc[a] > 0 ==> InAlloc(alloc, a)
  {
  }

  lemma AllocPlus(alloc: map<nat, nat>, h: nat, n: nat, u: nat)
    requires h !in alloc
    ensures InAlloc(alloc[h := n], u) <==> InAlloc(alloc, u) || h <= u < h + n
  {
    var alloc' := alloc[h := n];
    if h <= u < h + n { assert h in alloc' && alloc'[h] == n; }
    if InAlloc(alloc, u) {
      var b :| b in alloc && b <= u < b + alloc[b];
      assert b in alloc' && alloc'[b] == alloc[b];
    }
  }

  // malloc() writes only headers of free chunks.
  lemma TakenMemWrites(mem: seq<Header>, fl: seq<Chunk>, i: nat, n: nat, u: nat)
    requires Ordered(fl, |mem|) && i < |fl| && 0 < n <= fl[i].size && Node(fl, i) < |mem|
    requires mem[fl[i].addr].size == fl[i].size && u < |mem|
    requires u != Node(fl, i) && !(fl[i].addr <= u < fl[i].addr + fl[i].size)
    ensures var mem' := TakenMem(mem, Node(fl, i), fl[i].addr, n);
            |mem'| == |mem| && mem'[u] == mem[u]
  {
  }

  lemma ChunkNotAlloc(fl: seq<Chunk>, alloc: map<nat, nat>, i: nat, u: nat)
    requires AllApart(fl, alloc) && i < |fl| && fl[i].addr <= u < fl[i].addr + fl[i].size
    ensures !InAlloc(alloc, u)
  {
  }

  lemma TakenHeap(mem: seq<Header>, fl: seq<Chunk>, alloc: map<nat, nat>, owned: set<nat>, i: nat, n: nat)
    requires HeapOk(mem, fl, alloc, owned) && Linked(mem, fl) && i < |fl| && 0 < n <= fl[i].size
    ensures Node(fl, i) < |mem| && mem[fl[i].addr].size == fl[i].size
    ensures TakenAt(fl, i, n) !in alloc
    ensures var mem' := TakenMem(mem, Node(fl, i), fl[i].addr, n);
            var fl', alloc' := Taken(fl, i, n), alloc[TakenAt(fl, i, n) := n];
            && HeapOk(mem', fl', alloc', owned) && Linked(mem', fl')
            && Untouched(mem, mem', alloc)
  {
    hide InFree, InAlloc, Taken, TakenMem, LinkAt;
    TakenLinked(mem, fl, i, n);
    TakenOrdered(fl, |mem|, i, n);
    NodeNotAlloc(mem, fl, alloc, i);
    var h := TakenAt(fl, i, n);
    ChunkNotAlloc(fl, alloc, i, h);
    if h in alloc { InAllocSelf(alloc, h); assert false; }
    var mem', fl', alloc' := TakenMem(mem, Node(fl, i), fl[i].addr, n), Taken(fl, i, n), alloc[h := n];
    TakenMemSize(mem, Node(fl, i), fl[i].addr, n);
    forall b | b in alloc
      ensures mem'[b].size == alloc[b] && Apart(fl', b, alloc[b]) && (h + n <= b || b + alloc[b] <= h)
    {
      InAllocSelf(alloc, b);
      assert Apart(fl, b, alloc[b]);
      TakenMemWrites(mem, fl, i, n, b);
      TakenApart(fl, i, n, b, alloc[b]);
    }
    forall u: nat ensures u in owned <==> InFree(fl', u) || InAlloc(alloc', u) {
      TakenCovers(fl, |mem|, i, n, u);
      AllocPlus(alloc, h, n, u);
    }
    forall u | 0 <= u < |mem| && InAlloc(alloc, u) ensures mem'[u] == mem[u] {
      if fl[i].addr <= u < fl[i].addr + fl[i].size { ChunkNotAlloc(fl, alloc, i, u); assert false; }
      TakenMemWrites(mem, fl, i, n, u);
    }
  }

  lemma TakenMemSize(mem: seq<Header>, prev: nat, p: nat, n: nat)
    requires prev < |mem| && p < |mem| && p + mem[p].size <= |mem| && 0 < n <= mem[p].size
    ensures |TakenMem(mem, prev, p, n)| == |mem|
  {
  }

  ghost function Units(a: nat, n: nat): (r: set<nat>)
    ensures forall u :: u in r <==> a <= u < a + n
  {
    if n == 0 then {} else Units(a, n - 1) + {a + n - 1}
  }

  // sbrk(): memory grows by gap units that are not ours, then n that are; the
  // new block, which starts at hp, counts as allocated until it is freed.
  lemma GrownHeap(mem: seq<Header>, fl: seq<Chunk>, alloc: map<nat, nat>, owned: set<nat>,
                  mem': seq<Header>, n: nat)
    requires HeapOk(mem, fl, alloc, owned) && 0 < n && |mem| + n <= |mem'|
    requires mem <= mem'[..|mem'| - n] && mem'[|mem'| - n].size == n
    ensures var hp := |mem'| - n;
            && hp !in alloc
            && HeapOk(mem', fl, alloc[hp := n], owned + Units(hp, n))
            && (Linked(mem, fl) ==> Linked(mem', fl))
            && Untouched(mem, mem', alloc)
  {
    hide InFree, InAlloc;
    var hp := |mem'| - n;
    assert forall u | 0 <= u < |mem| :: mem'[u] == mem[u];
    var alloc', owned' := alloc[hp := n], owned + Units(hp, n);
    forall b | b in alloc' ensures Apart(fl, b, alloc'[b]) {
      if b != hp { assert Apart(fl, b, alloc[b]); }
    }
    forall u: nat ensures u in owned' <==> InFree(fl, u) || InAlloc(alloc', u) {
      AllocPlus(alloc, hp, n, u);
    }
    if Linked(mem, fl) {
      forall j | 0 <= j <= |fl| ensures LinkAt(mem', fl, j) { assert LinkAt(mem, fl, j); }
    }
  }

  // free()'s search stops at node k and only there.
  lemma SearchStops(mem: seq<Header>, fl: seq<Chunk>, j: nat, k: nat, bp: nat)
    requires Ordered(fl, |mem|) && Linked(mem, fl) && Below(fl, bp, k) && BASE < bp && j <= |fl|
    ensures Node(fl, j) < |mem| && mem[Node(fl, j)].ptr == Node(fl, Succ(fl, j))
    ensures var p, next := Node(fl, j), Node(fl, Succ(fl, j));
            p < bp < next || (p >= next && (bp > p || bp < next)) <==> j == k
  {
    assert LinkAt(mem, fl, j);
    if 0 < j < |fl| { assert fl[j - 1].addr < fl[j].addr; }
  }

  // Node number d after node f, going round the ring.
  function Around(fl: seq<Chunk>, f: nat, d: nat): (j: nat)
    requires f <= |fl| && d <= |fl| + 1
    ensures j <= |fl|
  {
    if f + d <= |fl| then f + d else f + d - |fl| - 1
  }

  ghost predicate IsNode(fl: seq<Chunk>, p: nat) {
    exists j :: 0 <= j <= |fl| && p == Node(fl, j)
  }

  // A header, and units enough for the bytes.
  function Nunits(nbytes: nat): (n: nat)
    ensures n > 0 && 8 * (n - 2) < nbytes <= 8 * (n - 1)
  {
    (nbytes + 8 - 1) / 8 + 1
  }

  class Heap {
    var mem: seq<Header>
    var freep: nat
    ghost var fl: seq<Chunk>
    // Blocks handed out (header address, units), and units got from sbrk.
    ghost var alloc: map<nat, nat>
    ghost var owned: set<nat>
    // Calls of morecore(), and those of sbrk() that failed.
    ghost var cores: nat
    ghost var refused: nat

    ghost predicate Valid()
      reads this
    {
      && HeapOk(mem, fl, alloc, owned)
      && if freep == 0 then fl == [] && alloc == map[] else Ring()
    }

    ghost predicate Ring()
      reads this
    {
      Linked(mem, fl) && IsNode(fl, freep)
    }

    constructor ()
      ensures Valid() && alloc == map[] && owned == {} && freep == 0
    {
      mem, freep := [Header(0, 0), Header(0, 0)], 0;
      fl, alloc, owned, cores, refused := [], map[], {}, 0, 0;
    }

    // free()'s search, which terminates: the node after which bp belongs.
    method Search(bp: nat, ghost k: nat) returns (p: nat)
      requires Ordered(fl, |mem|) && Ring() && BASE < bp && Below(fl, bp, k)
      ensures p == Node(fl, k)
    {
      hide LinkAt;
      p := freep;
      ghost var j :| 0 <= j <= |fl| && p == Node(fl, j);
      SearchStops(mem, fl, j, k, bp);
      while !(bp > p && bp < mem[p].ptr)
        invariant 0 <= j <= |fl| && p == Node(fl, j)
        invariant p < |mem| && mem[p].ptr == Node(fl, Succ(fl, j))
        invariant p < bp < mem[p].ptr || (p >= mem[p].ptr && (bp > p || bp < mem[p].ptr)) <==> j == k
        decreases if j <= k then k - j else k - j + |fl| + 1
      {
        if p >= mem[p].ptr && (bp > p || bp < mem[p].ptr) { break; }
        p, j := mem[p].ptr, Succ(fl, j);
        SearchStops(mem, fl, j, k, bp);
      }
    }

    // free(): the block joins the free list, merged with its neighbours.
    method Free(ap: nat)
      requires Valid() && 0 < ap && ap - 1 in alloc
      modifies this`mem, this`freep, this`fl, this`alloc
      ensures Valid() && freep != 0 && |mem| == |old(mem)|
      ensures alloc == old(alloc) - {ap - 1}
      ensures Untouched(old(mem), mem, alloc)
      ensures exists k :: Below(old(fl), ap - 1, k) && freep == Node(old(fl), k) &&
                fl == Inserted(old(fl), k, ap - 1, old(alloc)[ap - 1])
    {
      hide HeapOk, LinkAt, Linked, Inserted, Untouched, Apart;
      var bp := ap - 1;
      HeapFacts(mem, fl, alloc, owned, bp);
      ghost var k := CountBelow(fl, |mem|, bp, alloc[bp]);
      var p := Search(bp, k);
      FreedHeap(mem, fl, alloc, owned, k, bp);
      ghost var mem' := FreedMem(mem, p, bp);
      if bp + mem[bp].size == mem[p].ptr {
        mem := mem[bp := Header(mem[mem[p].ptr].ptr, mem[bp].size + mem[mem[p].ptr].size)];
      } else {
        mem := mem[bp := Header(mem[p].ptr, mem[bp].size)];
      }
      if p + mem[p].size == bp {
        mem := mem[p := Header(mem[bp].ptr, mem[p].size + mem[bp].size)];
      } else {
        mem := mem[p := Header(bp, mem[p].size)];
      }
      assert mem == mem';
      freep := p;
      fl, alloc := Inserted(fl, k, bp, alloc[bp]), alloc - {bp};
      NodeKept(old(fl), k, bp, old(alloc)[bp]);
    }

    // sbrk(): fails, or gives n units above all memory seen so far.
    method Sbrk(n: nat) returns (p: nat)
      requires 0 < n && 0 < |mem|
      modifies this`mem, this`refused
      ensures p == 0 ==> mem == old(mem)
      ensures p != 0 ==> |old(mem)| <= p == |mem| - n && old(mem) <= mem[..p]
      ensures refused == old(refused) + if p == 0 then 1 else 0
    {
      var fails: bool, gap: nat := *, *;
      if fails {
        refused := refused + 1;
        return 0;
      }
      p := |mem| + gap;
      mem := mem + seq(gap + n, _ => Header(0, 0));
    }

    // morecore(): get at least nu units, and free them.
    method Morecore(nu: nat) returns (p: nat)
      requires Valid() && freep != 0 && 0 < nu
      modifies this
      ensures Valid() && freep != 0 && alloc == old(alloc) && Untouched(old(mem), mem, alloc)
      ensures p == 0 ==> fl == old(fl) && owned == old(owned) && mem == old(mem) && freep == old(freep)
      ensures p != 0 ==> p == freep && HasBig(fl, nu) && Obtained(old(owned), owned, nu)
      ensures cores == old(cores) + 1 && refused == old(refused) + if p == 0 then 1 else 0
    {
      hide HeapOk, Linked, Inserted, InAlloc, FreedMem, Untouched, HasBig, Node, Ordered, Obtained;
      cores := cores + 1;
      UntouchedSelf(mem, alloc);
      HasBase(mem, fl, alloc, owned);
      var n := if nu < 4096 then 4096 else nu;
      var hp := Sbrk(n);
      if hp == 0 { return 0; }
      mem := mem[hp := mem[hp].(size := n)];
      GrownHeap(old(mem), fl, alloc, owned, mem, n);
      ghost var units := Units(hp, n);
      OwnedBelow(old(mem), fl, alloc, owned);
      assert hp in units && hp !in owned;
      alloc, owned := alloc[hp := n], owned + units;
      ghost var mem1 := mem;
      Free(hp + 1);
      assert alloc == old(alloc);
      ghost var k :| Below(old(fl), hp, k) && freep == Node(old(fl), k) && fl == Inserted(old(fl), k, hp, n);
      InsertedBig(old(fl), k, hp, n, nu);
      UntouchedTwice(old(mem), mem1, mem, alloc);
      ObtainedUnits(old(owned), hp, nu);
      p := freep;
    }

    // The first call: the ring is base alone.
    method InitRing()
      requires Valid() && freep == 0
      modifies this`mem, this`freep
      ensures Valid() && freep != 0 && Untouched(old(mem), mem, alloc)
    {
      hide InFree;
      mem := mem[BASE := Header(BASE, 0)];
      freep := BASE;
      assert LinkAt(mem, fl, 0);
      assert Node(fl, 0) == BASE;
      assert AllocOk(mem, alloc);
    }

    // Unlink chunk i, or cut nunits off its tail.
    method Take(prevp: nat, p: nat, nunits: nat, ghost i: nat) returns (r: nat)
      requires Valid() && freep != 0 && i < |fl| && 0 < nunits <= fl[i].size
      requires prevp == Node(fl, i) && p == fl[i].addr
      modifies this`mem, this`freep, this`fl, this`alloc
      ensures Valid() && r > 0 && r - 1 !in old(alloc) && alloc == old(alloc)[r - 1 := nunits]
      ensures freep == prevp && GaveTail(old(fl), fl, i, nunits, r - 1)
      ensures Untouched(old(mem), mem, old(alloc))
    {
      hide HeapOk, Linked, InAlloc, Untouched, IsNode, Ordered, Node;
      TakePlace(mem, fl, alloc, owned, i);
      TakenHeap(mem, fl, alloc, owned, i, nunits);
      ghost var mem' := TakenMem(mem, prevp, p, nunits);
      var q := p;
      if mem[p].size == nunits {
        mem := mem[prevp := mem[prevp].(ptr := mem[p].ptr)];
      } else {
        mem := mem[p := mem[p].(size := mem[p].size - nunits)];
        q := p + mem[p].size;
        mem := mem[q := mem[q].(size := nunits)];
      }
      assert mem == mem' && q == TakenAt(fl, i, nunits);
      freep := prevp;
      NodeKeptTaken(fl, i, nunits);
      fl, alloc := Taken(fl, i, nunits), alloc[q := nunits];
      r := q + 1;
    }

    // malloc(): n bytes of a new block, or 0 exactly if sbrk() fails.
    // morecore() is called once if no chunk is large enough, and else not at
    // all: then the block comes off the first large enough one after freep.
    method Malloc(nbytes: nat) returns (r: nat)
      requires Valid()
      modifies this
      ensures Valid()
      ensures cores == old(cores) + if HasBig(old(fl), Nunits(nbytes)) then 0 else 1
      ensures refused == old(refused) + if r == 0 then 1 else 0
      ensures r == 0 ==>
                alloc == old(alloc) && owned == old(owned) && fl == old(fl) && !HasBig(fl, Nunits(nbytes))
      ensures r != 0 ==> r - 1 !in old(alloc) && alloc == old(alloc)[r - 1 := Nunits(nbytes)]
      ensures HasBig(old(fl), Nunits(nbytes)) ==>
                && r != 0 && owned == old(owned)
                && exists i ::
                     && FirstFit(old(fl), old(freep), Nunits(nbytes), i)
                     && GaveTail(old(fl), fl, i, Nunits(nbytes), r - 1) && freep == Node(old(fl), i)
      ensures !HasBig(old(fl), Nunits(nbytes)) && r != 0 ==> Obtained(old(owned), owned, Nunits(nbytes))
      ensures Untouched(old(mem), mem, old(alloc))
    {
      hide HeapOk, Linked, Untouched, HasBig, Nunits, Searching, IsNode, FirstFit, GaveTail, Obtained;
      var nunits := Nunits(nbytes);
      UntouchedSelf(mem, alloc);
      NunitsPositive(nbytes);
      if freep == 0 { InitRing(); }
      var prevp := freep;
      ghost var f := SearchStart(mem, fl, freep, nunits);
      var p := mem[prevp].ptr;
      ghost var d, big := 1, false;
      while true
        invariant Valid() && freep != 0 && alloc == old(alloc) && Untouched(old(mem), mem, alloc)
        invariant Searching(fl, f, d, prevp, p, freep, nunits) && d <= |fl| + 1
        invariant cores == old(cores) + (if big then 1 else 0) && refused == old(refused)
        invariant if big then HasBig(fl, nunits) && !HasBig(old(fl), nunits) && Obtained(old(owned), owned, nunits)
                  else fl == old(fl) && owned == old(owned) && (fl == [] || freep == old(freep))
        decreases !big, |fl| + 1 - d
      {
        ghost var mem1 := mem;
        SearchStep(mem, fl, alloc, owned, f, d, prevp, p, freep, nunits);
        if mem[p].size >= nunits {
          r := Take(prevp, p, nunits, Around(fl, f, d) - 1);
          UntouchedTwice(old(mem), mem1, mem, old(alloc));
          return;
        }
        if p == freep {
          p := Morecore(nunits);
          UntouchedTwice(old(mem), mem1, mem, old(alloc));
          if p == 0 { return 0; }
          big := true;
          d := 0;
          f := SearchStart(mem, fl, freep, nunits);
        }
        prevp := p;
        p := mem[p].ptr;
        d := d + 1;
      }
    }
  }

  // sbrk() has given nu units, or 4096 if that is more, all of them new.
  ghost predicate Obtained(owned: set<nat>, owned': set<nat>, nu: nat) {
    var n := if nu < 4096 then 4096 else nu;
    exists hp: nat :: owned' == owned + Units(hp, n) && forall u | u in owned :: u < hp
  }

  lemma ObtainedUnits(owned: set<nat>, hp: nat, nu: nat)
    requires forall u | u in owned :: u < hp
    ensures Obtained(owned, owned + Units(hp, if nu < 4096 then 4096 else nu), nu)
  {
  }

  lemma TakePlace(mem: seq<Header>, fl: seq<Chunk>, alloc: map<nat, nat>, owned: set<nat>, i: nat)
    requires HeapOk(mem, fl, alloc, owned) && i < |fl|
    ensures 0 < Node(fl, i) && fl[i].addr + fl[i].size <= |mem|
  {
  }

  lemma NodeKeptTaken(fl: seq<Chunk>, i: nat, n: nat)
    requires i < |fl|
    ensures IsNode(Taken(fl, i, n), Node(fl, i)) && Node(fl, i) == Node(Taken(fl, i, n), i)
  {
    assert Node(Taken(fl, i, n), i) == Node(fl, i);
  }

  lemma RingStep(mem: seq<Header>, fl: seq<Chunk>, j: nat)
    requires Linked(mem, fl) && j <= |fl|
    ensures Node(fl, j) < |mem|
    ensures mem[Node(fl, j)] == Header(Node(fl, Succ(fl, j)), NodeSize(fl, j))
  {
    assert LinkAt(mem, fl, j);
  }

  // Nodes 1, .., d - 1 after node f are too small.
  ghost predicate AllSmall(fl: seq<Chunk>, f: nat, d: nat, n: nat)
    requires f <= |fl| && d <= |fl| + 1
  {
    forall t | 1 <= t < d :: NodeSize(fl, Around(fl, f, t)) < n
  }

  lemma AroundStart(fl: seq<Chunk>, f: nat, n: nat)
    requires f <= |fl|
    ensures Around(fl, f, 0) == f && Around(fl, f, 1) == Succ(fl, f) && AllSmall(fl, f, 1, n)
  {
  }

  lemma AroundNext(fl: seq<Chunk>, f: nat, d: nat, n: nat)
    requires f <= |fl| && 1 <= d <= |fl| + 1 && AllSmall(fl, f, d, n)
    ensures NodeSize(fl, Around(fl, f, d)) >= n > 0 ==>
              && Around(fl, f, d) > 0 && HasBig(fl, n)
              && Around(fl, f, d - 1) == Around(fl, f, d) - 1
              && Node(fl, Around(fl, f, d)) == fl[Around(fl, f, d) - 1].addr
              && NodeSize(fl, Around(fl, f, d)) == fl[Around(fl, f, d) - 1].size
    ensures d <= |fl| && NodeSize(fl, Around(fl, f, d)) < n ==>
              Around(fl, f, d + 1) == Succ(fl, Around(fl, f, d)) && AllSmall(fl, f, d + 1, n)
  {
  }

  // Back at node f after a full round, nothing is large enough.
  lemma FullRound(fl: seq<Chunk>, lim: nat, f: nat, d: nat, n: nat)
    requires Ordered(fl, lim) && f <= |fl| && 1 <= d <= |fl| + 1 && AllSmall(fl, f, d, n)
    requires Node(fl, Around(fl, f, d)) == Node(fl, f) && NodeSize(fl, f) < n
    ensures d == |fl| + 1 && !HasBig(fl, n)
  {
    assert Around(fl, f, d) == f;
    forall i | 0 <= i < |fl| ensures fl[i].size < n {
      var t := if i + 1 > f then i + 1 - f else i + 1 - f + |fl| + 1;
      assert t <= |fl| ==> NodeSize(fl, Around(fl, f, t)) < n;
      assert Around(fl, f, t) == i + 1;
    }
  }

  lemma NotRound(fl: seq<Chunk>, f: nat, d: nat)
    requires f <= |fl| && 1 <= d <= |fl| + 1 && Node(fl, Around(fl, f, d)) != Node(fl, f)
    ensures d <= |fl|
  {
  }

  // Chunk i is the first with n units or more that the ring has after freep.
  ghost predicate FirstFit(fl: seq<Chunk>, freep: nat, n: nat, i: nat) {
    && i < |fl| && fl[i].size >= n
    && forall j | 0 <= j < |fl| && j != i ::
         (if fl[i].addr > freep then freep < fl[j].addr < fl[i].addr
          else fl[j].addr > freep || fl[j].addr < fl[i].addr) ==> fl[j].size < n
  }

  // Chunk i gave its last n units, which begin at h.
  ghost predicate GaveTail(fl: seq<Chunk>, fl': seq<Chunk>, i: nat, n: nat, h: int) {
    && i < |fl| && n <= fl[i].size && h == fl[i].addr + fl[i].size - n
    && fl' == if fl[i].size == n then fl[..i] + fl[i + 1..]
              else fl[i := Chunk(fl[i].addr, fl[i].size - n)]
  }

  lemma SearchFinds(fl: seq<Chunk>, lim: nat, f: nat, d: nat, n: nat)
    requires Ordered(fl, lim) && f <= |fl| && 1 <= d <= |fl| + 1 && AllSmall(fl, f, d, n)
    requires Around(fl, f, d) > 0 && NodeSize(fl, Around(fl, f, d)) >= n
    ensures FirstFit(fl, Node(fl, f), n, Around(fl, f, d) - 1)
  {
    var i := Around(fl, f, d) - 1;
    forall j | 0 <= j < |fl| && j != i &&
        (if fl[i].addr > Node(fl, f) then Node(fl, f) < fl[j].addr < fl[i].addr
         else fl[j].addr > Node(fl, f) || fl[j].addr < fl[i].addr)
      ensures fl[j].size < n
    {
      var t := if j + 1 > f then j + 1 - f else j + 1 - f + |fl| + 1;
      assert t <= |fl| && Around(fl, f, t) == j + 1;
      assert 1 <= t < d;
    }
  }

  // Some chunk has n units or more.
  ghost predicate HasBig(fl: seq<Chunk>, n: nat) {
    exists i :: 0 <= i < |fl| && fl[i].size >= n
  }

  lemma NunitsPositive(nbytes: nat)
    ensures Nunits(nbytes) > 0
  {
  }

  // malloc()'s search began at freep, node f, and has gone d nodes on: p is
  // next to be looked at, after prevp; all before were too small.
  ghost predicate Searching(fl: seq<Chunk>, f: nat, d: nat, prevp: nat, p: nat, freep: nat, n: nat) {
    && f <= |fl| && freep == Node(fl, f) && 1 <= d <= |fl| + 1
    && prevp == Node(fl, Around(fl, f, d - 1)) && p == Node(fl, Around(fl, f, d))
    && AllSmall(fl, f, d, n)
  }

  lemma SearchStart(mem: seq<Header>, fl: seq<Chunk>, freep: nat, n: nat) returns (f: nat)
    requires Linked(mem, fl) && IsNode(fl, freep)
    ensures freep < |mem| && Searching(fl, f, 1, freep, mem[freep].ptr, freep, n)
  {
    hide AllSmall;
    f :| 0 <= f <= |fl| && freep == Node(fl, f);
    RingStep(mem, fl, f);
    AroundStart(fl, f, n);
  }

  // p is big enough, or the search goes on, or it has been all around.
  lemma SearchStep(mem: seq<Header>, fl: seq<Chunk>, alloc: map<nat, nat>, owned: set<nat>,
                   f: nat, d: nat, prevp: nat, p: nat, freep: nat, n: nat)
    requires HeapOk(mem, fl, alloc, owned) && Linked(mem, fl) && n > 0
    requires Searching(fl, f, d, prevp, p, freep, n)
    ensures p < |mem|
    ensures mem[p].size >= n ==>
              && HasBig(fl, n) && f <= |fl| && 0 < Around(fl, f, d) <= |fl|
              && n <= fl[Around(fl, f, d) - 1].size
              && prevp == Node(fl, Around(fl, f, d) - 1) && p == fl[Around(fl, f, d) - 1].addr
              && FirstFit(fl, freep, n, Around(fl, f, d) - 1)
    ensures mem[p].size < n && p == freep ==> !HasBig(fl, n)
    ensures mem[p].size < n && p != freep ==>
              d + 1 <= |fl| + 1 && Searching(fl, f, d + 1, p, mem[p].ptr, freep, n)
  {
    hide HeapOk, Linked, AllSmall, HasBig, Around, FirstFit, Ordered;
    RingStep(mem, fl, Around(fl, f, d));
    HeapOrdered(mem, fl, alloc, owned);
    AroundNext(fl, f, d, n);
    if mem[p].size >= n { SearchFinds(fl, |mem|, f, d, n); }
    if p != freep {
      NotRound(fl, f, d);
    } else if mem[p].size < n {
      RingStep(mem, fl, f);
      FullRound(fl, |mem|, f, d, n);
    }
  }

  lemma HeapOrdered(mem: seq<Header>, fl: seq<Chunk>, alloc: map<nat, nat>, owned: set<nat>)
    requires HeapOk(mem, fl, alloc, owned)
    ensures Ordered(fl, |mem|)
  {
  }

  lemma HasBase(mem: seq<Header>, fl: seq<Chunk>, alloc: map<nat, nat>, owned: set<nat>)
    requires HeapOk(mem, fl, alloc, owned)
    ensures BASE < |mem|
  {
  }

  lemma OwnedBelow(mem: seq<Header>, fl: seq<Chunk>, alloc: map<nat, nat>, owned: set<nat>)
    requires HeapOk(mem, fl, alloc, owned)
    ensures forall u | u in owned :: u < |mem|
  {
  }

  lemma InsertedBig(fl: seq<Chunk>, k: nat, a: nat, n: nat, nu: nat)
    requires k <= |fl| && nu <= n
    ensures HasBig(Inserted(fl, k, a, n), nu)
  {
    var g := Insert(fl, k, a, n);
    var g1 := Coalesce(g, k);
    assert g1[k].size >= n;
    var g2 := Inserted(fl, k, a, n);
    assert if k > 0 && Touch(g1, k - 1) then g2[k - 1].size >= n else g2[k].size >= n;
  }

  lemma UntouchedSelf(mem: seq<Header>, alloc: map<nat, nat>)
    ensures Untouched(mem, mem, alloc)
  {
  }

  lemma UntouchedTwice(m0: seq<Header>, m1: seq<Header>, m2: seq<Header>, alloc: map<nat, nat>)
    requires Untouched(m0, m1, alloc) && Untouched(m1, m2, alloc)
    ensures Untouched(m0, m2, alloc)
  {
  }

  // The node before the freed block is still a node.
  lemma NodeKept(fl: seq<Chunk>, k: nat, a: nat, n: nat)
    requires k <= |fl|
    ensures IsNode(Inserted(fl, k, a, n), Node(fl, k))
  {
    var g := Inserted(fl, k, a, n);
    assert Node(g, k) == Node(fl, k);
  }

  lemma HeapFacts(mem: seq<Header>, fl: seq<Chunk>, alloc: map<nat, nat>, owned: set<nat>, a: nat)
    requires HeapOk(mem, fl, alloc, owned) && a in alloc
    ensures Ordered(fl, |mem|) && Apart(fl, a, alloc[a]) && BASE < a && 0 < alloc[a]
    ensures a + alloc[a] <= |mem| && mem[a].size == alloc[a]
  {
  }
}
