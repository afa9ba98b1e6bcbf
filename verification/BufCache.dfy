// binit, bget and brelse on the linked list of bio.c.
module BufCache {
  import opened Blocks
  import opened Bio

  class Bcache {
    const n: nat                     // NBUF; node n is the list head
    const buf: array<Buf>
    const next: array<nat>
    const prev: array<nat>
    ghost var order: seq<nat>        // the buffers from head.next to head.prev

    ghost predicate Linked()
      reads this, next, prev
    {
      next.Length == prev.Length == n + 1 && next != prev && Ring(next[..], prev[..], order, n)
    }

    ghost predicate Valid()
      reads this, next, prev
    {
      buf.Length == n && Linked() && Permutation(order, n)
    }

    // binit()
    constructor (n: nat)
      ensures Valid() && this.n == n && fresh(buf) && fresh(next) && fresh(prev)
      ensures forall b | 0 <= b < n :: buf[b] == Buf(ZERO, 0, false, false, NONE, ZeroBlock())
      ensures |order| == n && forall i | 0 <= i < n :: order[i] == n - 1 - i
    {
      this.n := n;
      buf := new Buf[n](_ => Buf(ZERO, 0, false, false, NONE, ZeroBlock()));
      next := new nat[n + 1](_ => n);
      prev := new nat[n + 1](_ => n);
      order := [];
      new;
      var b := 0;
      while b < n
        invariant 0 <= b <= n && buf.Length == n && Linked()
        invariant forall i | 0 <= i < n :: buf[i] == Buf(ZERO, 0, false, false, NONE, ZeroBlock())
        invariant |order| == b && forall i | 0 <= i < b :: order[i] == b - 1 - i
      {
        PushFront(b);
        b := b + 1;
      }
      forall b | 0 <= b < n ensures b in order { assert order[n - 1 - b] == b; }
    }

    method PushFront(b: nat)
      requires Linked() && b < n && b !in order
      modifies `order, next, prev
      ensures Linked() && order == [b] + old(order)
    {
      Pushed(next[..], prev[..], order, n, b);
      next[b] := next[n];
      prev[b] := n;
      prev[next[n]] := b;
      next[n] := b;
      order := [b] + order;
    }

    method Unlink(b: nat, ghost i: nat)
      requires Linked() && i < |order| && order[i] == b
      modifies `order, next, prev
      ensures Linked() && order == Without(old(order), i)
    {
      Unlinked(next[..], prev[..], order, n, i);
      prev[next[b]] := prev[b];
      next[prev[b]] := next[b];
      order := Without(order, i);
    }

    // bget()'s first loop.
    method FindCached(key: nat) returns (b: nat)
      requires Valid()
      ensures var i := FirstWith(buf[..], order, key, 0);
        b == if i < |order| then order[i] else n
    {
      b := next[n];
      ghost var i := 0;
      assert Circle(order, n)[0] == n && Circle(order, n)[1] == next[n];
      while b != n
        invariant 0 <= i <= |order| && b == Circle(order, n)[i + 1]
        invariant FirstWith(buf[..], order, key, 0) == FirstWith(buf[..], order, key, i)
        decreases |order| - i
      {
        assert b == order[i];
        if buf[b].key == key { return; }
        assert next[b] == Circle(order, n)[i + 2];
        b := next[b];
        i := i + 1;
      }
    }

    // bget()'s second loop.
    method FindUnused() returns (b: nat)
      requires Valid()
      ensures var j := LastUnused(buf[..], order, |order|);
        b == if j > 0 then order[j - 1] else n
    {
      b := prev[n];
      ghost var j := |order|;
      assert Circle(order, n)[j + 1] == n && Circle(order, n)[j] == prev[n];
      while b != n
        invariant 0 <= j <= |order| && b == Circle(order, n)[j]
        invariant LastUnused(buf[..], order, |order|) == LastUnused(buf[..], order, j)
        decreases j
      {
        assert b == order[j - 1];
        if buf[b].refcnt == 0 && !buf[b].dirty { return; }
        assert prev[b] == Circle(order, n)[j - 1];
        b := prev[b];
        j := j - 1;
      }
    }

    // bget(), up to the sleep lock.
    method Bget(key: nat) returns (g: Got)
      requires Valid()
      modifies buf
      ensures Valid() && g == Choice(old(buf[..]), order, key)
      ensures buf[..] == if g.NoBuffers? then old(buf[..])
                         else old(buf[..])[g.b := Taken(old(buf[..])[g.b], g, key)]
      ensures g.Found? <==> exists b | 0 <= b < n :: old(buf[..])[b].key == key
      ensures g.NoBuffers? <==>
                forall b | 0 <= b < n ::
                  var x := old(buf[..])[b]; x.key != key && (x.refcnt > 0 || x.dirty)
      ensures !g.NoBuffers? ==>
                && g.b < n && buf[g.b].key == key
                && buf[g.b] == if g.Found? then old(buf[..])[g.b].(refcnt := old(buf[..])[g.b].refcnt + 1)
                               else Buf(key, 1, false, false, old(buf[..])[g.b].holder, old(buf[..])[g.b].data)
    {
      ChoiceIs(buf[..], order, key);
      var b := FindCached(key);
      if b != n {
        buf[b] := buf[b].(refcnt := buf[b].refcnt + 1);
        return Found(b);
      }
      b := FindUnused();
      if b != n {
        buf[b] := buf[b].(key := key, valid := false, dirty := false, refcnt := 1);
        return Recycled(b);
      }
      return NoBuffers;
    }

    // brelse(), after the sleep lock is released.
    method Brelse(b: nat, ghost i: nat)
      requires Valid() && i < |order| && order[i] == b && buf[b].refcnt > 0
      modifies `order, buf, next, prev
      ensures Valid() && buf[..] == old(buf[..])[b := old(buf[b]).(refcnt := old(buf[b]).refcnt - 1)]
      ensures order == if old(buf[b]).refcnt == 1 then ToFront(old(order), i) else old(order)
    {
      buf[b] := buf[b].(refcnt := buf[b].refcnt - 1);
      if buf[b].refcnt == 0 {
        ToFrontPermutation(order, i, n);
        assert ToFront(order, i) == [b] + Without(order, i);
        Unlink(b, i);
        PushFront(b);
      }
    }
  }
}
