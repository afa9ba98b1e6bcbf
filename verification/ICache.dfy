// The inode cache of fs.c as a step system: any number of references, each
// obtained by lookup, idup or ialloc and given up by iput, in any
// interleaving of the critical sections of icache.lock, the inodes' sleep
// locks and the buffer locks.
module ICache {

  const NONE: int := -1

  // An inode on disk; type 0 means free.
  datatype Dinode = Dinode(kind: nat, nlink: nat)

  // A cache entry.  An inum stands for a (dev, inum) pair; holder is the
  // reference through which the sleep lock is held.
  datatype Entry = Entry(inum: nat, ref: nat, valid: bool, holder: int, kind: nat, nlink: nat)

  // Where a reference is in its life.
  datatype Phase =
    | Held
    | Loading       // in ilock(), with the sleep lock
    | Holding       // after ilock()
    | PutLocked     // in iput(), before the check
    | PutFreeing    // iput() read ref == 1
    | PutFreed      // the inode is free on disk
    | PutDone       // lock released, before ref--

  datatype Handle = Gone | Marked(inum: nat) | Ref(slot: nat, ph: Phase)

  datatype Panic = NoPanic | NoEntries | NoType | BadLock

  // entries and credits count, for each inum, its directory entries and the
  // links that nlink counts without an entry (between iupdate and dirlink,
  // and between clearing an entry and the second iupdate).
  datatype Sys = Sys(
    es: seq<Entry>,
    hs: seq<Handle>,
    disk: seq<Dinode>,
    entries: seq<nat>,
    credits: seq<nat>,
    panic: Panic)

  datatype Step =
    | Lookup(h: nat, inum: nat, via: nat)
    | Dup(h: nat, of: nat)
    | Mark(h: nat, inum: nat, kind: nat)
    | AllocGet(h: nat)
    | Lock(h: nat)
    | Load(h: nat)
    | Unlock(h: nat)
    | AddLink(h: nat)
    | DropLink(h: nat)
    | AddEntry(inum: nat)
    | RemoveEntry(inum: nat)
    | PutLock(h: nat)
    | PutCheck(h: nat)
    | PutFree(h: nat)
    | PutInvalidate(h: nat)
    | PutDrop(h: nat)

  // ---- iget ----

  // The first referenced entry for inum from i on, or |es|.
  function Cached(es: seq<Entry>, inum: nat, i: nat): (e: nat)
    requires i <= |es|
    ensures i <= e <= |es|
    ensures forall j | i <= j < e :: !(es[j].ref > 0 && es[j].inum == inum)
    ensures e < |es| ==> es[e].ref > 0 && es[e].inum == inum
    decreases |es| - i
  {
    if i == |es| || (es[i].ref > 0 && es[i].inum == inum) then i else Cached(es, inum, i + 1)
  }

  function Empty(es: seq<Entry>, i: nat): (e: nat)
    requires i <= |es|
    ensures i <= e <= |es|
    ensures forall j | i <= j < e :: es[j].ref > 0
    ensures e < |es| ==> es[e].ref == 0
    decreases |es| - i
  {
    if i == |es| || es[i].ref == 0 then i else Empty(es, i + 1)
  }

  // The entry iget() returns, or |es| when it panics.
  function SlotFor(es: seq<Entry>, inum: nat): (e: nat)
    ensures e <= |es|
  {
    var e := Cached(es, inum, 0);
    if e < |es| then e else Empty(es, 0)
  }

  function Gotten(x: Entry, inum: nat): Entry {
    if x.ref > 0 then x.(ref := x.ref + 1)
    else x.(inum := inum, ref := 1, valid := false)
  }

  // The cache array and its search loop.
  class Cache {
    var inode: array<Entry>

    // The loop: an entry for inum, or else the first empty one.
    method Find(inum: nat) returns (found: bool, ip: nat)
      ensures found ==> ip == Cached(inode[..], inum, 0) < inode.Length
      ensures !found ==> Cached(inode[..], inum, 0) == inode.Length && ip == Empty(inode[..], 0)
    {
      ghost var es := inode[..];
      var empty := inode.Length;
      ip := 0;
      while ip < inode.Length
        invariant 0 <= ip <= inode.Length && empty <= inode.Length
        invariant Cached(es, inum, 0) == Cached(es, inum, ip)
        invariant empty == inode.Length ==> Empty(es, 0) == Empty(es, ip)
        invariant empty < inode.Length ==> Empty(es, 0) == empty
      {
        if inode[ip].ref > 0 && inode[ip].inum == inum { return true, ip; }
        if empty == inode.Length && inode[ip].ref == 0 { empty := ip; }
        ip := ip + 1;
      }
      return false, empty;
    }

    method Iget(inum: nat) returns (ip: nat)
      modifies inode
      ensures ip == SlotFor(old(inode[..]), inum)
      ensures inode[..] == if ip < inode.Length then old(inode[..])[ip := Gotten(old(inode[..])[ip], inum)]
                           else old(inode[..])
      ensures ip == inode.Length <==>
                forall e | 0 <= e < inode.Length :: old(inode[..])[e].ref > 0 && old(inode[..])[e].inum != inum
      ensures ip < inode.Length ==>
                var x := old(inode[..])[ip];
                inode[ip] == if x.ref > 0 && x.inum == inum then x.(ref := x.ref + 1)
                             else x.(inum := inum, ref := 1, valid := false)
      ensures ip < inode.Length && old(inode[..])[ip].ref == 0 ==>
                forall e | 0 <= e < inode.Length && old(inode[..])[e].ref > 0 :: old(inode[..])[e].inum != inum
    {
      var found;
      found, ip := Find(inum);
      if found {
        inode[ip] := inode[ip].(ref := inode[ip].ref + 1);
      } else if ip < inode.Length {
        inode[ip] := inode[ip].(inum := inum, ref := 1, valid := false);
      }
    }
  }

  // ialloc()'s scan of the inode blocks: mark the first free inode.
  method Ialloc(disk: seq<Dinode>, kind: nat) returns (r: seq<Dinode>, inum: nat)
    requires kind > 0
    ensures 1 <= inum <= |disk| || inum == |disk| == 0
    ensures forall i | 1 <= i < inum :: disk[i].kind != 0
    ensures if inum < |disk| then disk[inum].kind == 0 && r == disk[inum := Dinode(kind, 0)] else r == disk
  {
    r := disk;
    inum := if |disk| == 0 then 0 else 1;
    while inum < |disk|
      invariant 1 <= inum <= |disk| || inum == |disk| == 0
      invariant forall i | 1 <= i < inum :: disk[i].kind != 0
    {
      if r[inum].kind == 0 {
        r := r[inum := Dinode(kind, 0)];
        return;
      }
      inum := inum + 1;
    }
  }

  // ---- The steps ----

  predicate HasRef(s: Sys, h: nat) {
    h < |s.hs| && s.hs[h].Ref? && s.hs[h].slot < |s.es| && s.es[s.hs[h].slot].inum < |s.disk|
  }

  predicate In(s: Sys, h: nat, ph: Phase) {
    HasRef(s, h) && s.hs[h].ph == ph
  }

  predicate Sized(s: Sys) {
    |s.entries| == |s.credits| == |s.disk|
  }

  predicate Enabled(s: Sys, t: Step) {
    && s.panic.NoPanic? && Sized(s)
    && match t
       // A directory entry names the inode; or it is the "." of a directory
       // that the caller has locked.
       case Lookup(h, inum, via) =>
         && h < |s.hs| && s.hs[h].Gone? && inum < |s.disk|
         && (s.entries[inum] > 0 || (In(s, via, Holding) && s.es[s.hs[via].slot].inum == inum))
       case Dup(h, of) => h < |s.hs| && s.hs[h].Gone? && (In(s, of, Held) || In(s, of, Holding))
       case Mark(h, inum, kind) =>
         h < |s.hs| && s.hs[h].Gone? && 1 <= inum < |s.disk| && s.disk[inum].kind == 0 && kind > 0
       case AllocGet(h) => h < |s.hs| && s.hs[h].Marked? && s.hs[h].inum < |s.disk|
       case Lock(h) => In(s, h, Held) && s.es[s.hs[h].slot].holder == NONE
       case Load(h) => In(s, h, Loading)
       case Unlock(h) => In(s, h, Holding)
       case AddLink(h) => In(s, h, Holding)
       case DropLink(h) =>
         In(s, h, Holding) && s.es[s.hs[h].slot].nlink > 0 && s.credits[s.es[s.hs[h].slot].inum] > 0
       case AddEntry(inum) => inum < |s.disk| && s.credits[inum] > 0
       case RemoveEntry(inum) => inum < |s.disk| && s.entries[inum] > 0
       case PutLock(h) => In(s, h, Held) && s.es[s.hs[h].slot].holder == NONE
       case PutCheck(h) => In(s, h, PutLocked)
       case PutFree(h) => In(s, h, PutFreeing)
       case PutInvalidate(h) => In(s, h, PutFreed)
       case PutDrop(h) => In(s, h, PutDone) && s.es[s.hs[h].slot].ref > 0
  }

  function DoGet(s: Sys, h: nat, inum: nat): Sys
    requires h < |s.hs|
  {
    var e := SlotFor(s.es, inum);
    if e == |s.es| then s.(panic := NoEntries)
    else s.(es := s.es[e := Gotten(s.es[e], inum)], hs := s.hs[h := Ref(e, Held)])
  }

  // Entry e becomes y and reference h moves to phase ph.
  function Move(s: Sys, h: nat, y: Entry, ph: Phase): Sys
    requires HasRef(s, h)
  {
    var e := s.hs[h].slot;
    s.(es := s.es[e := y], hs := s.hs[h := Ref(e, ph)])
  }

  function DoLoad(s: Sys, h: nat): Sys
    requires HasRef(s, h)
  {
    var x := s.es[s.hs[h].slot];
    if x.valid then Move(s, h, x, Holding)
    else
      var d := s.disk[x.inum];
      Move(s, h, x.(valid := true, kind := d.kind, nlink := d.nlink), Holding)
      .(panic := if d.kind == 0 then NoType else NoPanic)
  }

  // Change nlink in the cache and, by iupdate(), on disk.
  function Relink(s: Sys, h: nat, nlink: nat, credits: nat): Sys
    requires HasRef(s, h) && Sized(s)
  {
    var e := s.hs[h].slot;
    var x := s.es[e];
    s.(es := s.es[e := x.(nlink := nlink)], disk := s.disk[x.inum := Dinode(x.kind, nlink)],
       credits := s.credits[x.inum := credits])
  }

  function Do(s: Sys, t: Step): Sys
    requires Enabled(s, t)
  {
    match t
    case Lookup(h, inum, _) => DoGet(s, h, inum)
    case Dup(h, of) =>
      var e := s.hs[of].slot;
      s.(es := s.es[e := s.es[e].(ref := s.es[e].ref + 1)], hs := s.hs[h := Ref(e, Held)])
    case Mark(h, inum, kind) =>
      s.(disk := s.disk[inum := Dinode(kind, 0)], hs := s.hs[h := Marked(inum)])
    case AllocGet(h) => DoGet(s, h, s.hs[h].inum)
    case Lock(h) =>
      var x := s.es[s.hs[h].slot];
      if x.ref < 1 then s.(panic := BadLock) else Move(s, h, x.(holder := h), Loading)
    case Load(h) => DoLoad(s, h)
    case Unlock(h) =>
      var x := s.es[s.hs[h].slot];
      if x.ref < 1 || x.holder != h then s.(panic := BadLock) else Move(s, h, x.(holder := NONE), Held)
    case AddLink(h) =>
      var x := s.es[s.hs[h].slot];
      Relink(s, h, x.nlink + 1, s.credits[x.inum] + 1)
    case DropLink(h) =>
      var x := s.es[s.hs[h].slot];
      Relink(s, h, x.nlink - 1, s.credits[x.inum] - 1)
    case AddEntry(inum) =>
      s.(credits := s.credits[inum := s.credits[inum] - 1], entries := s.entries[inum := s.entries[inum] + 1])
    case RemoveEntry(inum) =>
      s.(entries := s.entries[inum := s.entries[inum] - 1], credits := s.credits[inum := s.credits[inum] + 1])
    case PutLock(h) => Move(s, h, s.es[s.hs[h].slot].(holder := h), PutLocked)
    case PutCheck(h) =>
      var x := s.es[s.hs[h].slot];
      if x.valid && x.nlink == 0 && x.ref == 1 then Move(s, h, x, PutFreeing)
      else Move(s, h, x.(holder := NONE), PutDone)
    case PutFree(h) =>
      var x := s.es[s.hs[h].slot];
      Move(s, h, x.(kind := 0), PutFreed).(disk := s.disk[x.inum := Dinode(0, x.nlink)])
    case PutInvalidate(h) => Move(s, h, s.es[s.hs[h].slot].(valid := false, holder := NONE), PutDone)
    case PutDrop(h) =>
      var e := s.hs[h].slot;
      s.(es := s.es[e := s.es[e].(ref := s.es[e].ref - 1)], hs := s.hs[h := Gone])
  }

  function Next(s: Sys, t: Step): Sys {
    if Enabled(s, t) then Do(s, t) else s
  }

  function Run(s: Sys, ts: seq<Step>): Sys {
    if ts == [] then s else Next(Run(s, ts[..|ts| - 1]), ts[|ts| - 1])
  }

  // A file system whose link counts are right, and an empty cache.
  predicate Init(s: Sys) {
    && s.panic.NoPanic? && Sized(s)
    && (forall e | 0 <= e < |s.es| :: s.es[e].ref == 0 && s.es[e].holder == NONE)
    && (forall h | 0 <= h < |s.hs| :: s.hs[h].Gone?)
    && LinksOk(s.disk, s.entries, s.credits)
    && (forall k | 0 <= k < |s.credits| :: s.credits[k] == 0)
  }

  // ---- The invariant ----

  predicate LinkOk(d: Dinode, entries: nat, credits: nat) {
    if d.kind == 0 then entries == credits == 0 else d.nlink == entries + credits
  }

  predicate LinksOk(disk: seq<Dinode>, entries: seq<nat>, credits: seq<nat>) {
    |entries| == |credits| == |disk|
    && forall k | 0 <= k < |disk| :: LinkOk(disk[k], entries[k], credits[k])
  }

  predicate Active(ph: Phase) {
    ph.Held? || ph.Loading? || ph.Holding? || ph.PutLocked? || ph.PutFreeing?
  }

  predicate Locked(ph: Phase) {
    ph.Loading? || ph.Holding? || ph.PutLocked? || ph.PutFreeing? || ph.PutFreed?
  }

  // How many references there are to entry e.
  function Refs(hs: seq<Handle>, e: nat): nat {
    if hs == [] then 0
    else Refs(hs[1..], e) + if hs[0].Ref? && hs[0].slot == e then 1 else 0
  }

  predicate RefsOk(es: seq<Entry>, hs: seq<Handle>) {
    forall e | 0 <= e < |es| :: es[e].ref == Refs(hs, e)
  }

  predicate UniqueOk(es: seq<Entry>) {
    forall d, e | 0 <= d < |es| && 0 <= e < |es| && es[d].ref > 0 && es[e].ref > 0 && es[d].inum == es[e].inum ::
      d == e
  }

  predicate HandleOk(x: Handle, h: nat, es: seq<Entry>, disk: seq<Dinode>) {
    match x
    case Gone => true
    case Marked(k) => k < |disk| && disk[k].kind != 0 && disk[k].nlink == 0
    case Ref(e, ph) =>
      && e < |es| && es[e].inum < |disk|
      && (Locked(ph) ==> es[e].holder == h)
      && (Active(ph) ==> disk[es[e].inum].kind != 0)
      && (ph.Holding? ==> es[e].valid)
      && (ph.PutFreeing? ==> es[e].valid && es[e].nlink == 0 && es[e].ref == 1)
  }

  predicate HandlesOk(hs: seq<Handle>, es: seq<Entry>, disk: seq<Dinode>) {
    forall h | 0 <= h < |hs| :: HandleOk(hs[h], h, es, disk)
  }

  // The lock is held by a reference to this entry, and what the cache says
  // is what the disk says, but in the window between freeing the inode and
  // clearing valid.
  predicate EntryOk(x: Entry, e: nat, hs: seq<Handle>, disk: seq<Dinode>) {
    && (x.holder != NONE ==>
          0 <= x.holder < |hs| && hs[x.holder].Ref? && hs[x.holder].slot == e && Locked(hs[x.holder].ph))
    && (x.ref > 0 && x.valid && (x.holder == NONE || !hs[x.holder].ph.PutFreed?) ==>
          x.inum < |disk| && disk[x.inum] == Dinode(x.kind, x.nlink) && x.kind != 0)
  }

  predicate EntriesOk(es: seq<Entry>, hs: seq<Handle>, disk: seq<Dinode>) {
    forall e | 0 <= e < |es| :: EntryOk(es[e], e, hs, disk)
  }

  // Nobody uses an inode that ialloc() has marked and not yet got.
  predicate MarksOk(hs: seq<Handle>, es: seq<Entry>) {
    && (forall h, g | 0 <= h < |hs| && 0 <= g < |hs| && hs[h].Marked? && hs[g] == hs[h] :: h == g)
    && (forall h, g | 0 <= h < |hs| && 0 <= g < |hs| && hs[h].Marked? && hs[g].Ref? && hs[g].slot < |es|
                      && Active(hs[g].ph) ::
          es[hs[g].slot].inum != hs[h].inum)
  }

  predicate Inv(s: Sys) {
    && LinksOk(s.disk, s.entries, s.credits)
    && RefsOk(s.es, s.hs) && UniqueOk(s.es)
    && HandlesOk(s.hs, s.es, s.disk) && EntriesOk(s.es, s.hs, s.disk) && MarksOk(s.hs, s.es)
    && s.panic != NoType && s.panic != BadLock
  }

  // ---- Counting references ----

  lemma {:induction false} RefsUpdate(hs: seq<Handle>, h: nat, x: Handle, e: nat)
    requires h < |hs|
    ensures Refs(hs[h := x], e) ==
              Refs(hs, e) + (if x.Ref? && x.slot == e then 1 else 0)
                          - (if hs[h].Ref? && hs[h].slot == e then 1 else 0)
  {
    if h == 0 {
      assert hs[h := x][1..] == hs[1..];
    } else {
      assert hs[h := x][1..] == hs[1..][h - 1 := x];
      RefsUpdate(hs[1..], h - 1, x, e);
    }
  }

  lemma {:induction false} RefCounted(hs: seq<Handle>, h: nat, e: nat)
    requires h < |hs| && hs[h].Ref? && hs[h].slot == e
    ensures Refs(hs, e) >= 1
  {
    if h > 0 { RefCounted(hs[1..], h - 1, e); }
  }

  // A count of one leaves room for one.
  lemma {:induction false} OnlyRef(hs: seq<Handle>, h: nat, g: nat, e: nat)
    requires h < g < |hs| && hs[h].Ref? && hs[h].slot == e && hs[g].Ref? && hs[g].slot == e
    ensures Refs(hs, e) >= 2
  {
    if h == 0 { RefCounted(hs[1..], g - 1, e); } else { OnlyRef(hs[1..], h - 1, g - 1, e); }
  }

  lemma {:induction false} NoRefs(hs: seq<Handle>, e: nat)
    requires forall h | 0 <= h < |hs| :: hs[h].Gone?
    ensures Refs(hs, e) == 0
  {
    if hs != [] { NoRefs(hs[1..], e); }
  }
}
