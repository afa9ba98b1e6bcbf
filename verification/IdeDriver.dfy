// iderw and ideintr of ide.c on the linked queue.
module IdeDriver {
  import opened Blocks
  import opened Ide

  // queue is the chain from head through qnext.
  ghost predicate Chain(head: int, qnext: seq<int>, queue: seq<nat>) {
    && Distinct(queue) && (forall i | 0 <= i < |queue| :: queue[i] < |qnext|)
    && head == (if queue == [] then NONE else queue[0])
    && (forall i, j | 0 <= i < j < |queue| && j == i + 1 :: qnext[queue[i]] == queue[j])
    && (queue != [] ==> qnext[queue[|queue| - 1]] == NONE)
  }

  class Driver {
    const n: nat
    const buf: array<Req>
    const qnext: array<int>
    var idequeue: int
    var dev: Device
    ghost var queue: seq<nat>

    ghost predicate Valid()
      reads this, qnext
    {
      buf.Length == qnext.Length == n && Chain(idequeue, qnext[..], queue)
    }

    // The last buffer of the queue.
    method Last() returns (p: nat)
      requires Valid() && idequeue != NONE
      ensures queue != [] && p == queue[|queue| - 1]
    {
      p := idequeue;
      ghost var i := 0;
      while qnext[p] != NONE
        invariant 0 <= i < |queue| && p == queue[i]
        invariant qnext[p] == if i + 1 < |queue| then queue[i + 1] else NONE
        decreases |queue| - i
      {
        p := qnext[p];
        i := i + 1;
        assert i + 1 < |queue| ==> qnext[..][queue[i]] == queue[i + 1];
        assert qnext[..][queue[|queue| - 1]] == NONE;
      }
    }

    // iderw(): append b, and start the controller if the queue was empty.
    method Iderw(b: nat)
      requires Valid() && b < n && b !in queue
      modifies this, qnext
      ensures Valid() && queue == old(queue) + [b]
      ensures dev == if old(queue) == [] then Started(buf[b]) else old(dev)
    {
      ghost var q0 := qnext[..];
      if idequeue == NONE {
        qnext[b] := NONE;
        idequeue := b;
      } else {
        var p := Last();
        qnext[b] := NONE;
        qnext[p] := b;
      }
      queue := queue + [b];
      Appended(old(idequeue), q0, old(queue), b);
      assert qnext[..] == if old(queue) == [] then q0[b := NONE]
                          else q0[b := NONE][old(queue)[|old(queue)| - 1] := b];
      if idequeue == b {
        dev := Started(buf[b]);
      }
    }

    // ideintr(): take the head off, finish it, start the next.
    method Ideintr(data: Block)
      requires Valid()
      modifies this, buf
      ensures Valid()
      ensures old(queue) == [] ==> queue == [] && dev == old(dev) && buf[..] == old(buf[..])
      ensures old(queue) != [] ==>
                && queue == old(queue)[1..]
                && buf[..] == old(buf[..])[old(queue)[0] := Completed(old(buf[..])[old(queue)[0]], data)]
                && dev == if |old(queue)| > 1 then Started(old(buf[..])[old(queue)[1]]) else Off
    {
      if idequeue == NONE { return; }
      var b := idequeue;
      if |queue| > 1 { assert qnext[..][queue[0]] == queue[1]; }
      idequeue := qnext[b];
      queue := queue[1..];
      var x := buf[b];
      buf[b] := x.(valid := true, dirty := false, data := if x.dirty then x.data else data);
      if idequeue != NONE {
        dev := Started(buf[idequeue]);
      } else {
        dev := Off;
      }
    }
  }

  lemma Appended(head: int, qnext: seq<int>, queue: seq<nat>, b: nat)
    requires Chain(head, qnext, queue) && b < |qnext| && b !in queue
    ensures queue == [] ==> Chain(b, qnext[b := NONE], [b])
    ensures queue != [] ==> Chain(head, qnext[b := NONE][queue[|queue| - 1] := b], queue + [b])
  {
  }
}
