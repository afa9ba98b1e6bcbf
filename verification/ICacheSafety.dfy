// What every interleaving of the inode cache keeps.
module ICacheSafety {
  import opened ICache

  lemma InitInv(s: Sys)
    requires Init(s)
    ensures Inv(s)
  {
    forall e | 0 <= e < |s.es| ensures s.es[e].ref == Refs(s.hs, e) { NoRefs(s.hs, e); }
  }

  // ---- A reference moves between phases ----

  // Entry e keeps its identity and its count.
  ghost predicate SameEntry(x: Entry, y: Entry) {
    y.inum == x.inum && y.ref == x.ref
  }

  lemma MoveRefs(es: seq<Entry>, hs: seq<Handle>, h: nat, y: Entry, ph: Phase)
    requires h < |hs| && hs[h].Ref? && hs[h].slot < |es| && SameEntry(es[hs[h].slot], y)
    requires RefsOk(es, hs) && UniqueOk(es)
    ensures RefsOk(es[hs[h].slot := y], hs[h := Ref(hs[h].slot, ph)])
    ensures UniqueOk(es[hs[h].slot := y])
  {
    var es', hs' := es[hs[h].slot := y], hs[h := Ref(hs[h].slot, ph)];
    forall e | 0 <= e < |es| ensures es'[e].ref == Refs(hs', e) {
      RefsUpdate(hs, h, Ref(hs[h].slot, ph), e);
    }
  }

  lemma MoveMarks(es: seq<Entry>, hs: seq<Handle>, h: nat, y: Entry, ph: Phase)
    requires h < |hs| && hs[h].Ref? && hs[h].slot < |es| && SameEntry(es[hs[h].slot], y)
    requires MarksOk(hs, es) && (Active(ph) ==> Active(hs[h].ph))
    ensures MarksOk(hs[h := Ref(hs[h].slot, ph)], es[hs[h].slot := y])
  {
  }

  // The other references to e, none of which has the lock.
  lemma MoveHandles(es: seq<Entry>, hs: seq<Handle>, disk: seq<Dinode>, h: nat, y: Entry, ph: Phase)
    requires h < |hs| && hs[h].Ref? && hs[h].slot < |es| && SameEntry(es[hs[h].slot], y)
    requires HandlesOk(hs, es, disk)
    requires es[hs[h].slot].holder == NONE || es[hs[h].slot].holder == h
    requires HandleOk(Ref(hs[h].slot, ph), h, es[hs[h].slot := y], disk)
    ensures HandlesOk(hs[h := Ref(hs[h].slot, ph)], es[hs[h].slot := y], disk)
  {
    var e := hs[h].slot;
    forall g | 0 <= g < |hs| && g != h ensures HandleOk(hs[g], g, es[e := y], disk) {
      assert HandleOk(hs[g], g, es, disk);
    }
  }

  lemma MoveEntries(es: seq<Entry>, hs: seq<Handle>, disk: seq<Dinode>, h: nat, y: Entry, ph: Phase)
    requires h < |hs| && hs[h].Ref? && hs[h].slot < |es| && SameEntry(es[hs[h].slot], y)
    requires EntriesOk(es, hs, disk)
    requires EntryOk(y, hs[h].slot, hs[h := Ref(hs[h].slot, ph)], disk)
    ensures EntriesOk(es[hs[h].slot := y], hs[h := Ref(hs[h].slot, ph)], disk)
  {
    var e := hs[h].slot;
    forall d | 0 <= d < |es| && d != e ensures EntryOk(es[d], d, hs[h := Ref(e, ph)], disk) {
      assert EntryOk(es[d], d, hs, disk);
    }
  }

  lemma MoveInv(s: Sys, h: nat, y: Entry, ph: Phase)
    requires Inv(s) && HasRef(s, h) && SameEntry(s.es[s.hs[h].slot], y)
    requires Active(ph) ==> Active(s.hs[h].ph)
    requires s.es[s.hs[h].slot].holder == NONE || s.es[s.hs[h].slot].holder == h
    requires HandleOk(Ref(s.hs[h].slot, ph), h, s.es[s.hs[h].slot := y], s.disk)
    requires EntryOk(y, s.hs[h].slot, s.hs[h := Ref(s.hs[h].slot, ph)], s.disk)
    ensures Inv(Move(s, h, y, ph))
  {
    hide RefsOk, UniqueOk, MarksOk, HandlesOk, EntriesOk, LinksOk;
    MoveRefs(s.es, s.hs, h, y, ph);
    MoveMarks(s.es, s.hs, h, y, ph);
    MoveHandles(s.es, s.hs, s.disk, h, y, ph);
    MoveEntries(s.es, s.hs, s.disk, h, y, ph);
  }

  // What the invariant says of one reference.
  lemma RefFacts(s: Sys, h: nat)
    requires Inv(s) && HasRef(s, h)
    ensures HandleOk(s.hs[h], h, s.es, s.disk) && EntryOk(s.es[s.hs[h].slot], s.hs[h].slot, s.hs, s.disk)
    ensures s.es[s.hs[h].slot].ref >= 1
  {
    RefCounted(s.hs, h, s.hs[h].slot);
  }

  lemma LockInv(s: Sys, t: Step)
    requires Inv(s) && Enabled(s, t) && (t.Lock? || t.Unlock? || t.PutLock? || t.PutCheck? || t.PutInvalidate?)
    ensures Inv(Do(s, t))
  {
    RefFacts(s, t.h);
    var s' := Do(s, t);
    MoveInv(s, t.h, s'.es[s.hs[t.h].slot], s'.hs[t.h].ph);
  }

  lemma LoadInv(s: Sys, t: Step)
    requires Inv(s) && Enabled(s, t) && t.Load?
    ensures Inv(Do(s, t))
  {
    RefFacts(s, t.h);
    var s' := Do(s, t);
    MoveInv(s, t.h, s'.es[s.hs[t.h].slot], Holding);
  }

  // ---- iget ----

  // A new reference to inum may be made.
  ghost predicate MayGet(s: Sys, h: nat, inum: nat) {
    && h < |s.hs| && (s.hs[h].Gone? || s.hs[h] == Marked(inum))
    && inum < |s.disk| && s.disk[inum].kind != 0
    && (forall g | 0 <= g < |s.hs| && g != h :: s.hs[g] != Marked(inum))
    && (forall g | 0 <= g < |s.hs| && In(s, g, PutFreeing) :: s.es[s.hs[g].slot].inum != inum)
  }

  lemma SlotUnused(s: Sys, e: nat, g: nat)
    requires Inv(s) && e < |s.es| && s.es[e].ref == 0 && g < |s.hs|
    ensures !(s.hs[g].Ref? && s.hs[g].slot == e)
    ensures s.es[e].holder == NONE
  {
    if s.hs[g].Ref? && s.hs[g].slot == e { RefCounted(s.hs, g, e); }
    assert EntryOk(s.es[e], e, s.hs, s.disk);
    if s.es[e].holder != NONE { RefCounted(s.hs, s.es[e].holder, e); }
  }

  lemma GetRefs(es: seq<Entry>, hs: seq<Handle>, h: nat, inum: nat)
    requires h < |hs| && !hs[h].Ref? && RefsOk(es, hs) && UniqueOk(es) && SlotFor(es, inum) < |es|
    ensures var e := SlotFor(es, inum);
      RefsOk(es[e := Gotten(es[e], inum)], hs[h := Ref(e, Held)]) && UniqueOk(es[e := Gotten(es[e], inum)])
  {
    var e := SlotFor(es, inum);
    var es', hs' := es[e := Gotten(es[e], inum)], hs[h := Ref(e, Held)];
    forall d | 0 <= d < |es| ensures es'[d].ref == Refs(hs', d) {
      RefsUpdate(hs, h, Ref(e, Held), d);
    }
  }

  lemma GetHandles(s: Sys, h: nat, inum: nat)
    requires Inv(s) && MayGet(s, h, inum) && SlotFor(s.es, inum) < |s.es|
    ensures var e := SlotFor(s.es, inum);
      HandlesOk(s.hs[h := Ref(e, Held)], s.es[e := Gotten(s.es[e], inum)], s.disk)
  {
    var e := SlotFor(s.es, inum);
    forall g | 0 <= g < |s.hs| && g != h
      ensures HandleOk(s.hs[g], g, s.es[e := Gotten(s.es[e], inum)], s.disk)
    {
      assert HandleOk(s.hs[g], g, s.es, s.disk);
      if s.es[e].ref == 0 { SlotUnused(s, e, g); }
      assert s.hs[g].Ref? && s.hs[g].ph.PutFreeing? ==> In(s, g, PutFreeing);
    }
  }

  lemma GetEntries(s: Sys, h: nat, inum: nat)
    requires Inv(s) && MayGet(s, h, inum) && SlotFor(s.es, inum) < |s.es|
    ensures var e := SlotFor(s.es, inum);
      EntriesOk(s.es[e := Gotten(s.es[e], inum)], s.hs[h := Ref(e, Held)], s.disk)
  {
    var e := SlotFor(s.es, inum);
    var es' := s.es[e := Gotten(s.es[e], inum)];
    forall d | 0 <= d < |s.es|
      ensures EntryOk(es'[d], d, s.hs[h := Ref(e, Held)], s.disk)
    {
      assert EntryOk(s.es[d], d, s.hs, s.disk);
      if s.es[e].ref == 0 { SlotUnused(s, e, h); }
    }
  }

  lemma GetMarks(s: Sys, h: nat, inum: nat)
    requires Inv(s) && MayGet(s, h, inum) && SlotFor(s.es, inum) < |s.es|
    ensures var e := SlotFor(s.es, inum);
      MarksOk(s.hs[h := Ref(e, Held)], s.es[e := Gotten(s.es[e], inum)])
  {
    var e := SlotFor(s.es, inum);
    if s.es[e].ref == 0 {
      forall g | 0 <= g < |s.hs| && s.hs[g].Ref? ensures s.hs[g].slot != e { SlotUnused(s, e, g); }
    }
  }

  lemma GetInv(s: Sys, h: nat, inum: nat)
    requires Inv(s) && MayGet(s, h, inum)
    ensures Inv(DoGet(s, h, inum))
  {
    hide RefsOk, UniqueOk, MarksOk, HandlesOk, EntriesOk, LinksOk;
    if SlotFor(s.es, inum) < |s.es| {
      GetRefs(s.es, s.hs, h, inum);
      GetHandles(s, h, inum);
      GetEntries(s, h, inum);
      GetMarks(s, h, inum);
    }
  }

  // An inode about to be freed has no directory entry.
  lemma FreeingFacts(s: Sys, g: nat)
    requires Inv(s) && In(s, g, PutFreeing)
    ensures var e := s.hs[g].slot; var k := s.es[e].inum;
      && s.disk[k].kind != 0 && s.es[e].nlink == 0 && Sized(s) && s.entries[k] == 0 && s.credits[k] == 0
      && s.es[e].ref == 1
  {
    RefFacts(s, g);
    assert LinkOk(s.disk[s.es[s.hs[g].slot].inum], s.entries[s.es[s.hs[g].slot].inum],
                  s.credits[s.es[s.hs[g].slot].inum]);
  }

  lemma FreeingAlone(s: Sys, g: nat, h: nat)
    requires Inv(s) && In(s, g, PutFreeing) && HasRef(s, h) && h != g
    ensures s.es[s.hs[h].slot].inum != s.es[s.hs[g].slot].inum
  {
    FreeingFacts(s, g);
    RefFacts(s, h);
    if s.hs[h].slot == s.hs[g].slot {
      if h < g { OnlyRef(s.hs, h, g, s.hs[g].slot); } else { OnlyRef(s.hs, g, h, s.hs[g].slot); }
    }
  }

  lemma LookupInv(s: Sys, t: Step)
    requires Inv(s) && Enabled(s, t) && t.Lookup?
    ensures Inv(Do(s, t))
  {
    var h, k := t.h, t.inum;
    assert LinkOk(s.disk[k], s.entries[k], s.credits[k]);
    if s.entries[k] == 0 { RefFacts(s, t.via); }
    forall g | 0 <= g < |s.hs| && g != h ensures s.hs[g] != Marked(k) {
      assert HandleOk(s.hs[g], g, s.es, s.disk);
    }
    forall g | 0 <= g < |s.hs| && In(s, g, PutFreeing) ensures s.es[s.hs[g].slot].inum != k {
      FreeingFacts(s, g);
      if s.entries[k] == 0 { FreeingAlone(s, g, t.via); }
    }
    GetInv(s, h, k);
  }

  lemma AllocGetInv(s: Sys, t: Step)
    requires Inv(s) && Enabled(s, t) && t.AllocGet?
    ensures Inv(Do(s, t))
  {
    assert HandleOk(s.hs[t.h], t.h, s.es, s.disk);
    GetInv(s, t.h, s.hs[t.h].inum);
  }

  // idup() is iget() of the inode that is already there.
  lemma DupIsGet(s: Sys, t: Step)
    requires Enabled(s, t) && t.Dup? && UniqueOk(s.es) && s.es[s.hs[t.of].slot].ref >= 1
    ensures Do(s, t) == DoGet(s, t.h, s.es[s.hs[t.of].slot].inum)
  {
    assert SlotFor(s.es, s.es[s.hs[t.of].slot].inum) == s.hs[t.of].slot;
  }

  lemma DupInv(s: Sys, t: Step)
    requires Inv(s) && Enabled(s, t) && t.Dup?
    ensures Inv(Do(s, t))
  {
    hide RefsOk, UniqueOk, HandlesOk, EntriesOk, LinksOk, DoGet, Do, SlotFor;
    RefFacts(s, t.of);
    DupIsGet(s, t);
    var k := s.es[s.hs[t.of].slot].inum;
    forall g | 0 <= g < |s.hs| && In(s, g, PutFreeing) ensures s.es[s.hs[g].slot].inum != k {
      FreeingAlone(s, g, t.of);
    }
    GetInv(s, t.h, k);
  }

  // ---- The disk changes ----

  lemma MarkHandles(s: Sys, h: nat, k: nat, kind: nat)
    requires Inv(s) && h < |s.hs| && s.hs[h].Gone? && k < |s.disk| && s.disk[k].kind == 0 && kind > 0
    ensures HandlesOk(s.hs[h := Marked(k)], s.es, s.disk[k := Dinode(kind, 0)])
    ensures MarksOk(s.hs[h := Marked(k)], s.es)
  {
    forall g | 0 <= g < |s.hs| && g != h
      ensures HandleOk(s.hs[g], g, s.es, s.disk[k := Dinode(kind, 0)])
      ensures s.hs[g] != Marked(k)
      ensures s.hs[g].Ref? && Active(s.hs[g].ph) ==> s.es[s.hs[g].slot].inum != k
    {
      assert HandleOk(s.hs[g], g, s.es, s.disk);
    }
  }

  lemma MarkInv(s: Sys, t: Step)
    requires Inv(s) && Enabled(s, t) && t.Mark?
    ensures Inv(Do(s, t))
  {
    var h, k, kind := t.h, t.inum, t.kind;
    MarkHandles(s, h, k, kind);
    assert LinkOk(s.disk[k], s.entries[k], s.credits[k]);
    forall e | 0 <= e < |s.es|
      ensures s.es[e].ref == Refs(s.hs[h := Marked(k)], e)
      ensures EntryOk(s.es[e], e, s.hs[h := Marked(k)], s.disk[k := Dinode(kind, 0)])
    {
      RefsUpdate(s.hs, h, Marked(k), e);
      assert EntryOk(s.es[e], e, s.hs, s.disk);
    }
  }

  lemma RelinkHandles(s: Sys, h: nat, nlink: nat, credits: nat)
    requires Inv(s) && In(s, h, Holding) && Sized(s)
    ensures var s' := Relink(s, h, nlink, credits); HandlesOk(s.hs, s'.es, s'.disk) && MarksOk(s.hs, s'.es)
  {
    var s' := Relink(s, h, nlink, credits);
    RefFacts(s, h);
    forall g | 0 <= g < |s.hs| ensures HandleOk(s.hs[g], g, s'.es, s'.disk) {
      assert HandleOk(s.hs[g], g, s.es, s.disk);
    }
  }

  lemma RelinkEntries(s: Sys, h: nat, nlink: nat, credits: nat)
    requires Inv(s) && In(s, h, Holding) && Sized(s)
    ensures var s' := Relink(s, h, nlink, credits);
      EntriesOk(s'.es, s.hs, s'.disk) && RefsOk(s'.es, s.hs) && UniqueOk(s'.es)
  {
    var s' := Relink(s, h, nlink, credits);
    RefFacts(s, h);
    forall d | 0 <= d < |s.es| ensures EntryOk(s'.es[d], d, s.hs, s'.disk) {
      assert EntryOk(s.es[d], d, s.hs, s.disk);
    }
  }

  lemma RelinkLinks(disk: seq<Dinode>, entries: seq<nat>, credits: seq<nat>, k: nat, d: Dinode, credit: nat)
    requires LinksOk(disk, entries, credits) && k < |disk| && disk[k].kind != 0 && d.kind != 0
    requires d.nlink - disk[k].nlink == credit - credits[k]
    ensures LinksOk(disk[k := d], entries, credits[k := credit])
  {
    assert LinkOk(disk[k], entries[k], credits[k]);
  }

  lemma RelinkInv(s: Sys, h: nat, nlink: nat, credits: nat)
    requires Inv(s) && In(s, h, Holding) && Sized(s)
    requires var x := s.es[s.hs[h].slot]; nlink - x.nlink == credits - s.credits[x.inum]
    ensures Inv(Relink(s, h, nlink, credits))
  {
    hide RefsOk, UniqueOk, MarksOk, HandlesOk, EntriesOk, LinksOk;
    var x := s.es[s.hs[h].slot];
    RefFacts(s, h);
    RelinkHandles(s, h, nlink, credits);
    RelinkEntries(s, h, nlink, credits);
    RelinkLinks(s.disk, s.entries, s.credits, x.inum, Dinode(x.kind, nlink), credits);
  }

  lemma LinkInv(s: Sys, t: Step)
    requires Inv(s) && Enabled(s, t) && (t.AddLink? || t.DropLink?)
    ensures Inv(Do(s, t))
  {
    hide Inv, Relink;
    var x := s.es[s.hs[t.h].slot];
    if t.AddLink? { RelinkInv(s, t.h, x.nlink + 1, s.credits[x.inum] + 1); }
    else { RelinkInv(s, t.h, x.nlink - 1, s.credits[x.inum] - 1); }
  }

  lemma EntryInv(s: Sys, t: Step)
    requires Inv(s) && Enabled(s, t) && (t.AddEntry? || t.RemoveEntry?)
    ensures Inv(Do(s, t))
  {
    assert LinkOk(s.disk[t.inum], s.entries[t.inum], s.credits[t.inum]);
  }

  lemma FreeInv(s: Sys, t: Step)
    requires Inv(s) && Enabled(s, t) && t.PutFree?
    ensures Inv(Do(s, t))
  {
    var h := t.h;
    var e := s.hs[h].slot;
    var s' := Do(s, t);
    FreeingFacts(s, h);
    RefFacts(s, h);
    MoveRefs(s.es, s.hs, h, s'.es[e], PutFreed);
    MoveMarks(s.es, s.hs, h, s'.es[e], PutFreed);
    forall g | 0 <= g < |s.hs| ensures HandleOk(s'.hs[g], g, s'.es, s'.disk) {
      assert HandleOk(s.hs[g], g, s.es, s.disk);
      if g != h && HasRef(s, g) { FreeingAlone(s, h, g); }
    }
    forall d | 0 <= d < |s.es| ensures EntryOk(s'.es[d], d, s'.hs, s'.disk) {
      assert EntryOk(s.es[d], d, s.hs, s.disk);
    }
  }

  lemma DropHandles(s: Sys, h: nat, y: Entry)
    requires Inv(s) && In(s, h, PutDone)
    requires y == s.es[s.hs[h].slot].(ref := y.ref)
    ensures HandlesOk(s.hs[h := Gone], s.es[s.hs[h].slot := y], s.disk)
  {
    var hs' := s.hs[h := Gone];
    forall g | 0 <= g < |s.hs| ensures HandleOk(hs'[g], g, s.es[s.hs[h].slot := y], s.disk) {
      assert HandleOk(s.hs[g], g, s.es, s.disk);
      if In(s, g, PutFreeing) { FreeingAlone(s, g, h); }
    }
  }

  lemma DropEntries(s: Sys, h: nat, y: Entry)
    requires Inv(s) && In(s, h, PutDone)
    requires y == s.es[s.hs[h].slot].(ref := y.ref) && y.ref == s.es[s.hs[h].slot].ref - 1
    ensures EntriesOk(s.es[s.hs[h].slot := y], s.hs[h := Gone], s.disk)
    ensures RefsOk(s.es[s.hs[h].slot := y], s.hs[h := Gone])
  {
    var es, hs := s.es[s.hs[h].slot := y], s.hs[h := Gone];
    forall d | 0 <= d < |s.es| ensures es[d].ref == Refs(hs, d) && EntryOk(es[d], d, hs, s.disk) {
      RefsUpdate(s.hs, h, Gone, d);
      assert EntryOk(s.es[d], d, s.hs, s.disk);
    }
  }

  lemma DropMarks(es: seq<Entry>, hs: seq<Handle>, h: nat, y: Entry)
    requires h < |hs| && hs[h].Ref? && hs[h].slot < |es|
    requires y.inum == es[hs[h].slot].inum && y.ref <= es[hs[h].slot].ref
    requires MarksOk(hs, es) && UniqueOk(es)
    ensures MarksOk(hs[h := Gone], es[hs[h].slot := y]) && UniqueOk(es[hs[h].slot := y])
  {
  }

  lemma DropInv(s: Sys, t: Step)
    requires Inv(s) && Enabled(s, t) && t.PutDrop?
    ensures Inv(Do(s, t))
  {
    hide RefsOk, UniqueOk, MarksOk, HandlesOk, EntriesOk, LinksOk;
    var y := Do(s, t).es[s.hs[t.h].slot];
    DropHandles(s, t.h, y);
    DropEntries(s, t.h, y);
    DropMarks(s.es, s.hs, t.h, y);
  }

  lemma NextInv(s: Sys, t: Step)
    requires Inv(s)
    ensures Inv(Next(s, t))
  {
    if Enabled(s, t) {
      match t
      case Lookup(_, _, _) => LookupInv(s, t);
      case Dup(_, _) => DupInv(s, t);
      case Mark(_, _, _) => MarkInv(s, t);
      case AllocGet(_) => AllocGetInv(s, t);
      case Lock(_) => LockInv(s, t);
      case Load(_) => LoadInv(s, t);
      case Unlock(_) => LockInv(s, t);
      case AddLink(_) => LinkInv(s, t);
      case DropLink(_) => LinkInv(s, t);
      case AddEntry(_) => EntryInv(s, t);
      case RemoveEntry(_) => EntryInv(s, t);
      case PutLock(_) => LockInv(s, t);
      case PutCheck(_) => LockInv(s, t);
      case PutFree(_) => FreeInv(s, t);
      case PutInvalidate(_) => LockInv(s, t);
      case PutDrop(_) => DropInv(s, t);
    }
  }
}
