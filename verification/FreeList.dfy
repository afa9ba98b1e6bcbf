// The free list of umalloc.c as a value: chunks of memory in address order,
// none touching the next, linked into a ring through `base`.
module FreeList {

  // Addresses count header-sized units; base lies below the heap.
  const BASE: nat := 1

  datatype Header = Header(ptr: nat, size: nat)
  datatype Chunk = Chunk(addr: nat, size: nat)

  // In address order, inside memory, and fully coalesced.
  ghost predicate Ordered(fl: seq<Chunk>, lim: nat) {
    && BASE < lim
    && (forall i | 0 <= i < |fl| ::
          BASE < fl[i].addr && 0 < fl[i].size && fl[i].addr + fl[i].size <= lim)
    && (forall i, j | 0 <= i < j < |fl| :: fl[i].addr + fl[i].size < fl[j].addr)
  }

  // The ring: node 0 is base, node j is chunk j - 1.
  function Node(fl: seq<Chunk>, j: nat): nat
    requires j <= |fl|
  {
    if j == 0 then BASE else fl[j - 1].addr
  }

  function NodeSize(fl: seq<Chunk>, j: nat): nat
    requires j <= |fl|
  {
    if j == 0 then 0 else fl[j - 1].size
  }

  function Succ(fl: seq<Chunk>, j: nat): nat
    requires j <= |fl|
  {
    if j < |fl| then j + 1 else 0
  }

  // Node j of the ring, as it lies in memory.
  ghost predicate LinkAt(mem: seq<Header>, fl: seq<Chunk>, j: nat)
    requires j <= |fl|
  {
    Node(fl, j) < |mem| && mem[Node(fl, j)] == Header(Node(fl, Succ(fl, j)), NodeSize(fl, j))
  }

  ghost predicate Linked(mem: seq<Header>, fl: seq<Chunk>) {
    forall j | 0 <= j <= |fl| :: LinkAt(mem, fl, j)
  }

  ghost predicate InFree(fl: seq<Chunk>, u: nat) {
    exists i :: 0 <= i < |fl| && fl[i].addr <= u < fl[i].addr + fl[i].size
  }

  ghost predicate InAlloc(alloc: map<nat, nat>, u: nat) {
    exists a :: a in alloc && a <= u < a + alloc[a]
  }

  ghost predicate AllocOk(mem: seq<Header>, alloc: map<nat, nat>) {
    && (forall a | a in alloc ::
          BASE < a && 0 < alloc[a] && a + alloc[a] <= |mem| && mem[a].size == alloc[a])
    && (forall a, b | a in alloc && b in alloc && a < b :: a + alloc[a] <= b)
  }

  // No chunk overlaps [a, a + n).
  ghost predicate Apart(fl: seq<Chunk>, a: nat, n: nat) {
    forall i | 0 <= i < |fl| :: fl[i].addr + fl[i].size <= a || a + n <= fl[i].addr
  }

  ghost predicate AllApart(fl: seq<Chunk>, alloc: map<nat, nat>) {
    forall a | a in alloc :: Apart(fl, a, alloc[a])
  }

  // Each unit obtained from sbrk is in one chunk or one allocated block.
  ghost predicate Tiled(fl: seq<Chunk>, alloc: map<nat, nat>, owned: set<nat>) {
    forall u: nat :: u in owned <==> InFree(fl, u) || InAlloc(alloc, u)
  }

  // ---- Freeing: insert and coalesce ----

  // k chunks lie below the address a.
  ghost predicate Below(fl: seq<Chunk>, a: nat, k: nat) {
    && k <= |fl|
    && (forall i | 0 <= i < k :: fl[i].addr < a)
    && (forall i | k <= i < |fl| :: a < fl[i].addr)
  }

  // Join chunk i with the next one if they touch.
  predicate Touch(g: seq<Chunk>, i: nat) {
    i + 1 < |g| && g[i].addr + g[i].size == g[i + 1].addr
  }

  function Coalesce(g: seq<Chunk>, i: nat): (h: seq<Chunk>)
    ensures Touch(g, i) ==>
              && |h| == |g| - 1
              && forall t | 0 <= t < |h| ::
                   h[t] == if t < i then g[t]
                           else if t == i then Chunk(g[i].addr, g[i].size + g[i + 1].size)
                           else g[t + 1]
    ensures !Touch(g, i) ==> h == g
  {
    if Touch(g, i)
    then g[..i] + [Chunk(g[i].addr, g[i].size + g[i + 1].size)] + g[i + 2..]
    else g
  }

  function Insert(fl: seq<Chunk>, k: nat, a: nat, n: nat): (g: seq<Chunk>)
    requires k <= |fl|
    ensures |g| == |fl| + 1
    ensures forall t | 0 <= t < |g| ::
              g[t] == if t < k then fl[t] else if t == k then Chunk(a, n) else fl[t - 1]
  {
    fl[..k] + [Chunk(a, n)] + fl[k..]
  }

  // The free list after freeing [a, a + n), above k of its chunks.
  function Inserted(fl: seq<Chunk>, k: nat, a: nat, n: nat): seq<Chunk>
    requires k <= |fl|
  {
    var g := Coalesce(Insert(fl, k, a, n), k);
    if k > 0 then Coalesce(g, k - 1) else g
  }

  // Chunks i and j > i do not overlap, nor touch unless i is in gaps.
  ghost predicate Gap(g: seq<Chunk>, i: int, j: int, gaps: set<int>)
    requires 0 <= i < j < |g|
  {
    g[i].addr + g[i].size < g[j].addr + if i in gaps && j == i + 1 then 1 else 0
  }

  // Like Ordered, but chunks may touch at the gaps (after chunk) i in gaps.
  ghost predicate Weak(g: seq<Chunk>, lim: nat, gaps: set<int>) {
    && BASE < lim
    && (forall i | 0 <= i < |g| :: BASE < g[i].addr && 0 < g[i].size && g[i].addr + g[i].size <= lim)
    && (forall i, j | 0 <= i < j < |g| :: Gap(g, i, j, gaps))
  }

  lemma WeakOrdered(g: seq<Chunk>, lim: nat)
    requires Weak(g, lim, {})
    ensures Ordered(g, lim)
  {
    forall i, j | 0 <= i < j < |g| ensures g[i].addr + g[i].size < g[j].addr {
      assert Gap(g, i, j, {});
    }
  }

  lemma InsertGap(fl: seq<Chunk>, lim: nat, k: nat, a: nat, n: nat, i: nat, j: nat)
    requires Ordered(fl, lim) && Below(fl, a, k) && Apart(fl, a, n) && 0 < n
    requires i < j <= |fl|
    ensures Gap(Insert(fl, k, a, n), i, j, {k - 1, k})
  {
    if j == k {
      assert fl[i].addr + fl[i].size <= a;
      if i < k - 1 { assert fl[i].addr + fl[i].size < fl[k - 1].addr; }
    } else if i == k {
      assert a + n <= fl[j - 1].addr;
      if j > k + 1 { assert fl[k].addr + fl[k].size < fl[j - 1].addr; }
    }
  }

  lemma InsertWeak(fl: seq<Chunk>, lim: nat, k: nat, a: nat, n: nat)
    requires Ordered(fl, lim) && Below(fl, a, k) && Apart(fl, a, n)
    requires BASE < a && 0 < n && a + n <= lim
    ensures Weak(Insert(fl, k, a, n), lim, {k - 1, k})
  {
    var g, gaps := Insert(fl, k, a, n), {k - 1, k};
    forall i, j | 0 <= i < j < |g| ensures Gap(g, i, j, gaps) {
      InsertGap(fl, lim, k, a, n, i, j);
    }
  }

  // Coalescing at k leaves the other gaps.
  lemma CoalesceWeak(g: seq<Chunk>, lim: nat, k: nat, gaps: set<int>)
    requires Weak(g, lim, gaps) && forall i :: i in gaps ==> i <= k
    ensures Weak(Coalesce(g, k), lim, gaps - {k})
  {
    var h, gaps' := Coalesce(g, k), gaps - {k};
    forall i, j | 0 <= i < j < |h| ensures Gap(h, i, j, gaps') {
      if Touch(g, k) {
        assert Gap(g, if i <= k then i else i + 1, if j <= k then j else j + 1, gaps);
        if i == k { assert Gap(g, k + 1, j + 1, gaps); }
      } else {
        assert Gap(g, i, j, gaps);
      }
    }
  }

  lemma NoGap(g: seq<Chunk>, lim: nat, i: int)
    requires Weak(g, lim, {i}) && i < 0
    ensures Weak(g, lim, {})
  {
    forall a, b | 0 <= a < b < |g| ensures Gap(g, a, b, {}) { assert Gap(g, a, b, {i}); }
  }

  lemma InsertedOrdered(fl: seq<Chunk>, lim: nat, k: nat, a: nat, n: nat)
    requires Ordered(fl, lim) && Below(fl, a, k) && Apart(fl, a, n)
    requires BASE < a && 0 < n && a + n <= lim
    ensures Ordered(Inserted(fl, k, a, n), lim)
  {
    hide Weak, Insert, Coalesce, Ordered;
    InsertWeak(fl, lim, k, a, n);
    var g := Insert(fl, k, a, n);
    CoalesceWeak(g, lim, k, {k - 1, k});
    assert {k - 1, k} - {k} == {k - 1};
    if k > 0 {
      CoalesceWeak(Coalesce(g, k), lim, k - 1, {k - 1});
      assert {k - 1} - {k - 1} == {};
    } else {
      NoGap(Coalesce(g, k), lim, -1);
    }
    WeakOrdered(Inserted(fl, k, a, n), lim);
  }

  lemma CoalesceCovers(g: seq<Chunk>, i: nat, u: nat)
    ensures InFree(Coalesce(g, i), u) <==> InFree(g, u)
  {
    var h := Coalesce(g, i);
    if Touch(g, i) {
      if InFree(g, u) {
        var j :| 0 <= j < |g| && g[j].addr <= u < g[j].addr + g[j].size;
        var t := if j <= i then j else j - 1;
        assert h[t].addr <= u < h[t].addr + h[t].size;
      }
      if InFree(h, u) {
        var t :| 0 <= t < |h| && h[t].addr <= u < h[t].addr + h[t].size;
        var j := if t < i || (t == i && u < g[i + 1].addr) then t else t + 1;
        assert g[j].addr <= u < g[j].addr + g[j].size;
      }
    }
  }

  lemma InsertCovers(fl: seq<Chunk>, k: nat, a: nat, n: nat, u: nat)
    requires k <= |fl|
    ensures InFree(Insert(fl, k, a, n), u) <==> InFree(fl, u) || a <= u < a + n
  {
    var g := Insert(fl, k, a, n);
    if a <= u < a + n { assert g[k].addr <= u < g[k].addr + g[k].size; }
    if InFree(fl, u) {
      var i :| 0 <= i < |fl| && fl[i].addr <= u < fl[i].addr + fl[i].size;
      var t := if i < k then i else i + 1;
      assert g[t].addr <= u < g[t].addr + g[t].size;
    }
    if InFree(g, u) {
      var t :| 0 <= t < |g| && g[t].addr <= u < g[t].addr + g[t].size;
      if t != k {
        var i := if t < k then t else t - 1;
        assert fl[i].addr <= u < fl[i].addr + fl[i].size;
      }
    }
  }

  // Exactly the freed units are added.
  lemma InsertedCovers(fl: seq<Chunk>, k: nat, a: nat, n: nat, u: nat)
    requires k <= |fl|
    ensures InFree(Inserted(fl, k, a, n), u) <==> InFree(fl, u) || a <= u < a + n
  {
    hide InFree;
    var g := Insert(fl, k, a, n);
    InsertCovers(fl, k, a, n, u);
    CoalesceCovers(g, k, u);
    if k > 0 { CoalesceCovers(Coalesce(g, k), k - 1, u); }
  }

  lemma CoalesceApart(g: seq<Chunk>, i: nat, b: nat, m: nat)
    requires Apart(g, b, m) && 0 < m && forall j | 0 <= j < |g| :: 0 < g[j].size
    ensures Apart(Coalesce(g, i), b, m)
    ensures forall j | 0 <= j < |Coalesce(g, i)| :: 0 < Coalesce(g, i)[j].size
  {
  }

  lemma InsertedApart(fl: seq<Chunk>, k: nat, a: nat, n: nat, b: nat, m: nat)
    requires k <= |fl| && Apart(fl, b, m) && (a + n <= b || b + m <= a) && 0 < m && 0 < n
    requires forall j | 0 <= j < |fl| :: 0 < fl[j].size
    ensures Apart(Inserted(fl, k, a, n), b, m)
  {
    var g := Insert(fl, k, a, n);
    CoalesceApart(g, k, b, m);
    if k > 0 { CoalesceApart(Coalesce(g, k), k - 1, b, m); }
  }

  // ---- The ring in memory ----

  ghost predicate NodesDiffer(fl: seq<Chunk>) {
    && (forall i | 0 <= i < |fl| :: fl[i].addr != BASE)
    && (forall i, j | 0 <= i < j < |fl| :: fl[i].addr != fl[j].addr)
  }

  // Put a new node a after node k.
  lemma InsertLinked(mem: seq<Header>, fl: seq<Chunk>, k: nat, a: nat, n: nat)
    requires Linked(mem, fl) && NodesDiffer(fl) && k <= |fl| && a < |mem|
    requires a != BASE && forall i | 0 <= i < |fl| :: fl[i].addr != a
    ensures Node(fl, k) < |mem|
    ensures var p := Node(fl, k);
            var mem' := mem[a := Header(Node(fl, Succ(fl, k)), n)][p := Header(a, NodeSize(fl, k))];
            var g := Insert(fl, k, a, n);
            Linked(mem', g) && NodesDiffer(g)
  {
    assert LinkAt(mem, fl, k);
    var p := Node(fl, k);
    var mem' := mem[a := Header(Node(fl, Succ(fl, k)), n)][p := Header(a, NodeSize(fl, k))];
    var g := Insert(fl, k, a, n);
    forall j | 0 <= j <= |g| ensures LinkAt(mem', g, j) {
      if j <= k {
        assert LinkAt(mem, fl, j);
      } else if j > k + 1 {
        assert LinkAt(mem, fl, j - 1);
      }
    }
  }

  function CoalescedMem(mem: seq<Header>, g: seq<Chunk>, i: nat): seq<Header>
    requires Touch(g, i) && g[i].addr < |mem| && g[i + 1].addr < |mem|
  {
    mem[g[i].addr := Header(mem[g[i + 1].addr].ptr, g[i].size + g[i + 1].size)]
  }

  lemma LinkedAt(mem: seq<Header>, g: seq<Chunk>, j: nat)
    requires Linked(mem, g) && j <= |g|
    ensures LinkAt(mem, g, j)
  {
  }

  // The nodes of the ring once chunk i + 1 has joined chunk i.
  lemma CoalesceNode(g: seq<Chunk>, i: nat, j: nat)
    requires NodesDiffer(g) && Touch(g, i) && j <= |Coalesce(g, i)|
    ensures |Coalesce(g, i)| == |g| - 1
    ensures var h, j' := Coalesce(g, i), if j <= i + 1 then j else j + 1;
      && Node(h, j) == Node(g, j')
      && NodeSize(h, j) == (if j == i + 1 then g[i].size + g[i + 1].size else NodeSize(g, j'))
      && Node(h, Succ(h, j)) == Node(g, Succ(g, if j == i + 1 then i + 2 else j'))
      && (Node(g, j') == g[i].addr <==> j == i + 1)
  {
  }

  lemma CoalesceLinkAt(mem: seq<Header>, g: seq<Chunk>, i: nat, j: nat)
    requires Linked(mem, g) && NodesDiffer(g) && Touch(g, i) && j <= |Coalesce(g, i)|
    ensures g[i].addr < |mem| && g[i + 1].addr < |mem|
    ensures LinkAt(CoalescedMem(mem, g, i), Coalesce(g, i), j)
  {
    hide Linked, NodesDiffer, Succ, Coalesce;
    LinkedAt(mem, g, i + 1);
    LinkedAt(mem, g, i + 2);
    LinkedAt(mem, g, if j <= i + 1 then j else j + 1);
    CoalesceNode(g, i, j);
  }

  // Drop node i + 2 (chunk i + 1) and give its units to chunk i.
  lemma CoalesceLinked(mem: seq<Header>, g: seq<Chunk>, i: nat)
    requires Linked(mem, g) && NodesDiffer(g) && Touch(g, i)
    ensures g[i].addr < |mem| && g[i + 1].addr < |mem|
    ensures Linked(CoalescedMem(mem, g, i), Coalesce(g, i)) && NodesDiffer(Coalesce(g, i))
  {
    CoalesceLinkAt(mem, g, i, 0);
    forall j | 0 <= j <= |Coalesce(g, i)| ensures LinkAt(CoalescedMem(mem, g, i), Coalesce(g, i), j) {
      CoalesceLinkAt(mem, g, i, j);
    }
  }

  // What free() does to memory once it has found p = node k.
  function FreedMem(mem: seq<Header>, p: nat, a: nat): seq<Header>
    requires p < |mem| && a < |mem| && mem[p].ptr < |mem|
  {
    var q := mem[p].ptr;
    var m1 := if a + mem[a].size == q
              then mem[a := Header(mem[q].ptr, mem[a].size + mem[q].size)]
              else mem[a := Header(q, mem[a].size)];
    if p + m1[p].size == a
    then m1[p := Header(m1[a].ptr, m1[p].size + m1[a].size)]
    else m1[p := Header(a, m1[p].size)]
  }

  // The header that free() gives the freed block before joining it left.
  function FreedHeader(mem: seq<Header>, q: nat, a: nat): Header
    requires a < |mem| && q < |mem|
  {
    if a + mem[a].size == q then Header(mem[q].ptr, mem[a].size + mem[q].size)
    else Header(q, mem[a].size)
  }

  lemma JoinedRight(mem: seq<Header>, fl: seq<Chunk>, k: nat, a: nat, n: nat)
    requires Linked(mem, fl) && NodesDiffer(fl) && k <= |fl| && a < |mem| && mem[a].size == n
    requires a > BASE && forall i | 0 <= i < |fl| :: fl[i].addr != a
    ensures Node(fl, k) < |mem| && Node(fl, Succ(fl, k)) < |mem|
    ensures var p, q := Node(fl, k), Node(fl, Succ(fl, k));
            var m1 := mem[a := FreedHeader(mem, q, a)][p := Header(a, NodeSize(fl, k))];
            var g1 := Coalesce(Insert(fl, k, a, n), k);
            && Linked(m1, g1) && NodesDiffer(g1)
            && mem[p] == Header(q, NodeSize(fl, k))
            && k < |g1| && g1[k] == Chunk(a, m1[a].size)
            && (k > 0 ==> g1[k - 1] == fl[k - 1])
  {
    hide Linked;
    var p, q := Node(fl, k), Node(fl, Succ(fl, k));
    LinkedAt(mem, fl, k);
    LinkedAt(mem, fl, Succ(fl, k));
    InsertLinked(mem, fl, k, a, n);
    var g := Insert(fl, k, a, n);
    var m0 := mem[a := Header(q, n)][p := Header(a, NodeSize(fl, k))];
    assert Touch(g, k) <==> a + n == q;
    if Touch(g, k) {
      CoalesceLinked(m0, g, k);
      assert p != a && q != a && q != p && m0[q] == mem[q];
      assert m0[a := FreedHeader(mem, q, a)] ==
             mem[a := FreedHeader(mem, q, a)][p := Header(a, NodeSize(fl, k))];
    }
  }

  lemma FreedLinked(mem: seq<Header>, fl: seq<Chunk>, k: nat, a: nat, n: nat)
    requires Ordered(fl, |mem|) && Linked(mem, fl) && Below(fl, a, k) && Apart(fl, a, n)
    requires BASE < a && 0 < n && a + n <= |mem| && mem[a].size == n
    ensures Node(fl, k) < |mem| && mem[Node(fl, k)].ptr < |mem|
    ensures Linked(FreedMem(mem, Node(fl, k), a), Inserted(fl, k, a, n))
  {
    hide LinkAt, Insert, Coalesce;
    var p, q := Node(fl, k), Node(fl, Succ(fl, k));
    JoinedRight(mem, fl, k, a, n);
    var m1 := mem[a := FreedHeader(mem, q, a)][p := Header(a, NodeSize(fl, k))];
    var g1 := Coalesce(Insert(fl, k, a, n), k);
    FreedMemIs(mem, p, a, NodeSize(fl, k));
    if k > 0 && Touch(g1, k - 1) {
      CoalesceLinked(m1, g1, k - 1);
      assert Inserted(fl, k, a, n) == Coalesce(g1, k - 1);
    } else {
      assert p + NodeSize(fl, k) != a;
      assert Inserted(fl, k, a, n) == g1;
    }
  }

  lemma FreedMemIs(mem: seq<Header>, p: nat, a: nat, size: nat)
    requires p < |mem| && a < |mem| && mem[p].ptr < |mem| && p != a && mem[p].size == size
    ensures var q := mem[p].ptr;
            var m1 := mem[a := FreedHeader(mem, q, a)][p := Header(a, size)];
            FreedMem(mem, p, a) ==
              if p + size == a then m1[p := Header(m1[a].ptr, size + m1[a].size)] else m1
  {
  }

  // ---- Allocating: take a chunk, or the tail of one ----

  // The free list after taking n units from chunk i.
  function Taken(fl: seq<Chunk>, i: nat, n: nat): seq<Chunk>
    requires i < |fl|
  {
    if fl[i].size == n then fl[..i] + fl[i + 1..]
    else if fl[i].size > n then fl[i := Chunk(fl[i].addr, fl[i].size - n)]
    else fl
  }

  // Where the block taken lies: at the tail of the chunk.
  function TakenAt(fl: seq<Chunk>, i: nat, n: nat): nat
    requires i < |fl| && n <= fl[i].size
  {
    fl[i].addr + fl[i].size - n
  }

  lemma TakenOrdered(fl: seq<Chunk>, lim: nat, i: nat, n: nat)
    requires Ordered(fl, lim) && i < |fl| && 0 < n <= fl[i].size
    ensures Ordered(Taken(fl, i, n), lim)
    ensures Apart(Taken(fl, i, n), TakenAt(fl, i, n), n)
  {
  }

  lemma TakenApart(fl: seq<Chunk>, i: nat, n: nat, b: nat, m: nat)
    requires i < |fl| && 0 < n <= fl[i].size && 0 < m && Apart(fl, b, m)
    ensures Apart(Taken(fl, i, n), b, m)
    ensures TakenAt(fl, i, n) + n <= b || b + m <= TakenAt(fl, i, n)
  {
  }

  // Exactly the taken units are removed.
  lemma TakenCovers(fl: seq<Chunk>, lim: nat, i: nat, n: nat, u: nat)
    requires Ordered(fl, lim) && i < |fl| && 0 < n <= fl[i].size
    ensures var h := TakenAt(fl, i, n);
            InFree(Taken(fl, i, n), u) <==> InFree(fl, u) && !(h <= u < h + n)
    ensures var h := TakenAt(fl, i, n); h <= u < h + n ==> InFree(fl, u)
  {
    var g, h := Taken(fl, i, n), TakenAt(fl, i, n);
    if h <= u < h + n { assert fl[i].addr <= u < fl[i].addr + fl[i].size; }
    if InFree(fl, u) && !(h <= u < h + n) {
      TakenKeeps(fl, lim, i, n, u);
    }
    if InFree(g, u) {
      var t :| 0 <= t < |g| && g[t].addr <= u < g[t].addr + g[t].size;
      TakenFrom(fl, lim, i, n, u, t);
    }
  }

  lemma TakenKeeps(fl: seq<Chunk>, lim: nat, i: nat, n: nat, u: nat)
    requires Ordered(fl, lim) && i < |fl| && 0 < n <= fl[i].size && InFree(fl, u)
    requires var h := TakenAt(fl, i, n); !(h <= u < h + n)
    ensures InFree(Taken(fl, i, n), u)
  {
    var g := Taken(fl, i, n);
    var j :| 0 <= j < |fl| && fl[j].addr <= u < fl[j].addr + fl[j].size;
    if fl[i].size == n && j > i {
      assert g[j - 1] == fl[j];
    } else {
      assert g[j].addr <= u < g[j].addr + g[j].size;
    }
  }

  lemma TakenFrom(fl: seq<Chunk>, lim: nat, i: nat, n: nat, u: nat, t: nat)
    requires Ordered(fl, lim) && i < |fl| && 0 < n <= fl[i].size && t < |Taken(fl, i, n)|
    requires var c := Taken(fl, i, n)[t]; c.addr <= u < c.addr + c.size
    ensures InFree(fl, u)
    ensures var h := TakenAt(fl, i, n); !(h <= u < h + n)
  {
    var j := if fl[i].size == n && t >= i then t + 1 else t;
    assert fl[j].addr <= u < fl[j].addr + fl[j].size;
    if j < i { assert fl[j].addr + fl[j].size < fl[i].addr; }
    if j > i { assert fl[i].addr + fl[i].size < fl[j].addr; }
  }

  // What malloc() does to memory at node i + 1, whose predecessor is prev.
  function TakenMem(mem: seq<Header>, prev: nat, p: nat, n: nat): seq<Header>
    requires prev < |mem| && p < |mem| && p + mem[p].size <= |mem| && 0 < n <= mem[p].size
  {
    if mem[p].size == n then mem[prev := mem[prev].(ptr := mem[p].ptr)]
    else
      var m1 := mem[p := mem[p].(size := mem[p].size - n)];
      var h := p + m1[p].size;
      m1[h := m1[h].(size := n)]
  }

  lemma UnlinkAt(mem: seq<Header>, fl: seq<Chunk>, i: nat, j: nat)
    requires Linked(mem, fl) && NodesDiffer(fl) && i < |fl| && j < |fl|
    ensures Node(fl, i) < |mem| && fl[i].addr < |mem|
    ensures var mem' := mem[Node(fl, i) := mem[Node(fl, i)].(ptr := mem[fl[i].addr].ptr)];
            LinkAt(mem', fl[..i] + fl[i + 1..], j)
  {
    assert LinkAt(mem, fl, i) && LinkAt(mem, fl, i + 1);
    var g := fl[..i] + fl[i + 1..];
    assert forall t | 0 <= t < |g| :: g[t] == if t < i then fl[t] else fl[t + 1];
    if j > i {
      assert LinkAt(mem, fl, j + 1);
    } else {
      assert LinkAt(mem, fl, j);
    }
  }

  // The nodes of the ring once chunk i has lost its tail.
  lemma ShrinkNode(fl: seq<Chunk>, lim: nat, i: nat, n: nat, j: nat)
    requires Ordered(fl, lim) && i < |fl| && 0 < n < fl[i].size && j <= |fl|
    ensures var g := Taken(fl, i, n);
      && |g| == |fl| && Node(g, j) == Node(fl, j) && Succ(g, j) == Succ(fl, j)
      && Node(g, Succ(g, j)) == Node(fl, Succ(fl, j))
      && NodeSize(g, j) == (if j == i + 1 then fl[i].size - n else NodeSize(fl, j))
    ensures Node(fl, j) != TakenAt(fl, i, n) && TakenAt(fl, i, n) < lim
    ensures Node(fl, j) == fl[i].addr <==> j == i + 1
  {
  }

  lemma ShrinkAt(mem: seq<Header>, fl: seq<Chunk>, i: nat, n: nat, j: nat)
    requires Ordered(fl, |mem|) && Linked(mem, fl) && i < |fl| && 0 < n < fl[i].size && j <= |fl|
    ensures fl[i].addr + fl[i].size <= |mem| && mem[fl[i].addr].size == fl[i].size && Node(fl, i) < |mem|
    ensures |Taken(fl, i, n)| == |fl|
    ensures LinkAt(TakenMem(mem, Node(fl, i), fl[i].addr, n), Taken(fl, i, n), j)
  {
    hide Taken, Succ;
    assert LinkAt(mem, fl, i) && LinkAt(mem, fl, i + 1) && LinkAt(mem, fl, j);
    ShrinkNode(fl, |mem|, i, n, j);
  }

  lemma UnlinkLinked(mem: seq<Header>, fl: seq<Chunk>, i: nat)
    requires Linked(mem, fl) && NodesDiffer(fl) && i < |fl|
    ensures Node(fl, i) < |mem| && fl[i].addr < |mem|
    ensures Linked(mem[Node(fl, i) := mem[Node(fl, i)].(ptr := mem[fl[i].addr].ptr)], fl[..i] + fl[i + 1..])
  {
    hide LinkAt;
    UnlinkAt(mem, fl, i, i);
    var mem', g := mem[Node(fl, i) := mem[Node(fl, i)].(ptr := mem[fl[i].addr].ptr)], fl[..i] + fl[i + 1..];
    forall j | 0 <= j <= |g| ensures LinkAt(mem', g, j) { UnlinkAt(mem, fl, i, j); }
  }

  lemma TakenLinked(mem: seq<Header>, fl: seq<Chunk>, i: nat, n: nat)
    requires Ordered(fl, |mem|) && Linked(mem, fl) && i < |fl| && 0 < n <= fl[i].size
    ensures Node(fl, i) < |mem| && fl[i].addr + fl[i].size <= |mem| && mem[fl[i].addr].size == fl[i].size
    ensures var mem' := TakenMem(mem, Node(fl, i), fl[i].addr, n);
            Linked(mem', Taken(fl, i, n)) && mem'[TakenAt(fl, i, n)].size == n
  {
    NodeInMem(mem, fl, i);
    if fl[i].size == n {
      UnlinkLinked(mem, fl, i);
    } else {
      ShrinkLinked(mem, fl, i, n);
    }
  }

  lemma NodeInMem(mem: seq<Header>, fl: seq<Chunk>, i: nat)
    requires Linked(mem, fl) && i < |fl|
    ensures Node(fl, i) < |mem| && fl[i].addr < |mem| && mem[fl[i].addr].size == fl[i].size
  {
    assert LinkAt(mem, fl, i) && LinkAt(mem, fl, i + 1);
  }

  lemma ShrinkLinked(mem: seq<Header>, fl: seq<Chunk>, i: nat, n: nat)
    requires Ordered(fl, |mem|) && Linked(mem, fl) && i < |fl| && 0 < n < fl[i].size
    ensures Node(fl, i) < |mem| && fl[i].addr + fl[i].size <= |mem| && mem[fl[i].addr].size == fl[i].size
    ensures Linked(TakenMem(mem, Node(fl, i), fl[i].addr, n), Taken(fl, i, n))
  {
    hide LinkAt, Ordered;
    ShrinkAt(mem, fl, i, n, i);
    var mem', g := TakenMem(mem, Node(fl, i), fl[i].addr, n), Taken(fl, i, n);
    forall j | 0 <= j <= |g| ensures LinkAt(mem', g, j) { ShrinkAt(mem, fl, i, n, j); }
  }
}
