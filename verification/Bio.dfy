// The buffer cache of bio.c: the doubly linked list of all buffers, with the
// pointers of the original, and what bget and brelse do to it.
module Bio {
  import opened Blocks

  const NONE: int := -1

  // A key stands for a (dev, blockno) pair; ZERO is (0, 0), the key of the
  // buffers in static storage.  holder is the holder of the sleep lock.
  const ZERO: nat := 0

  datatype Buf = Buf(key: nat, refcnt: nat, valid: bool, dirty: bool, holder: int, data: Block)

  // ---- The list as a sequence, most recently used first ----

  // Where the search from the front finds key, or |order|.
  function FirstWith(bufs: seq<Buf>, order: seq<nat>, key: nat, i: nat): (j: nat)
    requires i <= |order| && InRange(order, |bufs|)
    ensures i <= j <= |order|
    ensures forall k | i <= k < j :: bufs[order[k]].key != key
    ensures j < |order| ==> bufs[order[j]].key == key
    decreases |order| - i
  {
    if i == |order| || bufs[order[i]].key == key then i else FirstWith(bufs, order, key, i + 1)
  }

  predicate Unused(x: Buf) {
    x.refcnt == 0 && !x.dirty
  }

  // One more than where the search from the back finds an unused buffer,
  // or 0.
  function LastUnused(bufs: seq<Buf>, order: seq<nat>, i: nat): (j: nat)
    requires i <= |order| && InRange(order, |bufs|)
    ensures j <= i
    ensures forall k | j <= k < i :: !Unused(bufs[order[k]])
    ensures j > 0 ==> Unused(bufs[order[j - 1]])
  {
    if i == 0 || Unused(bufs[order[i - 1]]) then i else LastUnused(bufs, order, i - 1)
  }

  predicate InRange(order: seq<nat>, n: nat) {
    forall i | 0 <= i < |order| :: order[i] < n
  }

  predicate Distinct(order: seq<nat>) {
    forall i, j | 0 <= i < j < |order| :: order[i] != order[j]
  }

  // All n buffers, each once.
  predicate Permutation(order: seq<nat>, n: nat) {
    InRange(order, n) && Distinct(order) && forall b | 0 <= b < n :: b in order
  }

  datatype Got = Found(b: nat) | Recycled(b: nat) | NoBuffers

  // bget()'s choice.
  function Choice(bufs: seq<Buf>, order: seq<nat>, key: nat): (g: Got)
    requires InRange(order, |bufs|)
  {
    var i := FirstWith(bufs, order, key, 0);
    if i < |order| then Found(order[i])
    else
      var j := LastUnused(bufs, order, |order|);
      if j > 0 then Recycled(order[j - 1]) else NoBuffers
  }

  // What bget() chooses: a buffer of the block if there is one, or else one
  // that is neither in use nor dirty; none only if there is none.
  lemma ChoiceIs(bufs: seq<Buf>, order: seq<nat>, key: nat)
    requires Permutation(order, |bufs|)
    ensures var g := Choice(bufs, order, key);
      && (g.Found? <==> exists b | 0 <= b < |bufs| :: bufs[b].key == key)
      && (g.Found? ==> g.b < |bufs| && bufs[g.b].key == key)
      && (g.Recycled? ==> g.b < |bufs| && bufs[g.b].refcnt == 0 && !bufs[g.b].dirty)
      && (g.NoBuffers? <==>
            forall b | 0 <= b < |bufs| :: bufs[b].key != key && (bufs[b].refcnt > 0 || bufs[b].dirty))
  {
    var i, j := FirstWith(bufs, order, key, 0), LastUnused(bufs, order, |order|);
    forall b | 0 <= b < |bufs|
      ensures bufs[b].key == key ==> i < |order|
      ensures Unused(bufs[b]) ==> j > 0
    {
      assert b in order;
      var k :| 0 <= k < |order| && order[k] == b;
    }
    if i < |order| { assert bufs[order[i]].key == key; }
  }

  function Taken(x: Buf, g: Got, key: nat): Buf {
    if g.Recycled? then x.(key := key, valid := false, dirty := false, refcnt := 1)
    else x.(refcnt := x.refcnt + 1)
  }

  // Moving position i to the front.
  function ToFront(order: seq<nat>, i: nat): (r: seq<nat>)
    requires i < |order|
  {
    [order[i]] + order[..i] + order[i + 1..]
  }

  lemma ToFrontAt(order: seq<nat>, i: nat, j: nat)
    requires i < |order| && j < |order|
    ensures ToFront(order, i)[if j < i then j + 1 else if j == i then 0 else j] == order[j]
  {
  }

  lemma ToFrontPermutation(order: seq<nat>, i: nat, n: nat)
    requires i < |order| && Permutation(order, n)
    ensures Permutation(ToFront(order, i), n)
  {
    var r := ToFront(order, i);
    forall b | 0 <= b < n ensures b in r {
      assert b in order;
      var j :| 0 <= j < |order| && order[j] == b;
      ToFrontAt(order, i, j);
    }
  }

  // ---- The pointers ----

  // From the list head through order back to the head.
  function Circle(order: seq<nat>, head: nat): seq<nat> {
    [head] + order + [head]
  }

  // next and prev link neighbours on the circle.
  ghost predicate Linked(next: seq<nat>, prev: seq<nat>, c: seq<nat>) {
    && (forall i | 0 <= i < |c| :: c[i] < |next| && c[i] < |prev|)
    && (forall i, j | 0 <= i < j < |c| && j == i + 1 :: next[c[i]] == c[j] && prev[c[j]] == c[i])
  }

  ghost predicate Ring(next: seq<nat>, prev: seq<nat>, order: seq<nat>, head: nat) {
    && |next| == |prev| == head + 1 && InRange(order, head) && Distinct(order)
    && Linked(next, prev, Circle(order, head))
  }

  function Without(order: seq<nat>, i: nat): seq<nat>
    requires i < |order|
  {
    order[..i] + order[i + 1..]
  }

  // The two assignments that take b out of the ring.
  lemma Unlinked(next: seq<nat>, prev: seq<nat>, order: seq<nat>, head: nat, i: nat)
    requires Ring(next, prev, order, head) && i < |order|
    ensures var b := order[i];
      && next[b] <= head && prev[b] <= head
      && Ring(next[prev[b] := next[b]], prev[next[b] := prev[b]], Without(order, i), head)
  {
    var c, w := Circle(order, head), Circle(Without(order, i), head);
    var p, b, q := c[i], c[i + 1], c[i + 2];
    assert next[b] == q && prev[b] == p;
    var next', prev' := next[p := q], prev[q := p];
    forall j, k | 0 <= j < k < |w| && k == j + 1
      ensures next'[w[j]] == w[k] && prev'[w[k]] == w[j]
    {
      assert w[j] == if j <= i then c[j] else c[j + 1];
      assert w[k] == if k <= i then c[k] else c[k + 1];
      if j != i { assert w[j] != p && w[k] != q; }
    }
  }

  // The four assignments that put b first.
  lemma Pushed(next: seq<nat>, prev: seq<nat>, order: seq<nat>, head: nat, b: nat)
    requires Ring(next, prev, order, head) && b < head && b !in order
    ensures next[head] <= head
    ensures Ring(next[b := next[head]][head := b], prev[b := head][next[head] := b], [b] + order, head)
  {
    var c, w := Circle(order, head), Circle([b] + order, head);
    var q := c[1];
    assert c[0] == head && next[head] == q;
    var next', prev' := next[b := q][head := b], prev[b := head][q := b];
    forall j, k | 0 <= j < k < |w| && k == j + 1
      ensures next'[w[j]] == w[k] && prev'[w[k]] == w[j]
    {
      assert w[k] == if k == 1 then b else c[k - 1];
      if j >= 1 { assert w[j] == if j == 1 then b else c[j - 1]; }
    }
  }
}
