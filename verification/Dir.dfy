// Directories (fs.c): a file of 16-byte entries, read as a finite map from
// names to inode numbers.
module Dir {
  import opened Blocks
  import opened Names
  import opened FsState

  const DESIZE: nat := 16

  // A directory entry: a 16-bit inode number, 0 when free, and a name.
  datatype Dirent = Dirent(inum: nat, name: seq<Byte>)

  function Decode(b: seq<Byte>): (e: Dirent)
    requires |b| == DESIZE
  {
    var lo: int, hi: int := b[0], b[1];
    Dirent(lo + 0x100 * hi, Cut(b[2..], DIRSIZ))
  }

  // The entry for inum with the name field s; inum is a ushort.
  function Encode(inum: nat, s: seq<Byte>): (b: seq<Byte>)
    requires |s| == DIRSIZ
    ensures |b| == DESIZE && Decode(b) == Dirent(inum % 0x1_0000, Cut(s, DIRSIZ))
    ensures b == [inum % 256, inum / 256 % 256] + s
  {
    var lo: Byte, hi: Byte := inum % 0x100, inum / 0x100 % 0x100;
    TwoBytes(inum);
    assert ([lo, hi] + s)[2..] == s;
    [lo, hi] + s
  }

  lemma TwoBytes(n: nat)
    ensures n % 0x100 + 0x100 * (n / 0x100 % 0x100) == n % 0x1_0000
  {
    var q, r := n / 0x100, n % 0x100;
    var p, m := q / 0x100, q % 0x100;
    assert n == 0x1_0000 * p + (0x100 * m + r) && 0x100 * m + r < 0x1_0000;
  }

  predicate Whole(data: seq<Byte>) {
    |data| % DESIZE == 0
  }

  // The i-th entry's bytes.
  function Chunk(data: seq<Byte>, i: nat): (b: seq<Byte>)
    requires DESIZE * i + DESIZE <= |data|
    ensures |b| == DESIZE
  {
    data[DESIZE * i..DESIZE * i + DESIZE]
  }

  function Entries(data: seq<Byte>): (es: seq<Dirent>)
    ensures |es| == |data| / DESIZE
    ensures forall i | 0 <= i < |es| :: es[i] == Decode(Chunk(data, i))
  {
    seq(|data| / DESIZE, i requires 0 <= i < |data| / DESIZE => Decode(Chunk(data, i)))
  }

  // ---- The map ----

  predicate UniqueNames(es: seq<Dirent>) {
    forall i, j | 0 <= i < j < |es| && es[i].inum != 0 && es[j].inum != 0 :: es[i].name != es[j].name
  }

  // A used entry gives name k the inode number v.
  predicate Has(es: seq<Dirent>, k: seq<Byte>, v: nat) {
    v != 0 && Dirent(v, k) in es
  }

  function Bindings(es: seq<Dirent>): (m: map<seq<Byte>, nat>)
    ensures forall k | k in m :: Has(es, k, m[k])
    ensures forall i | 0 <= i < |es| && es[i].inum != 0 :: es[i].name in m
  {
    if es == [] then map[] else
      var m, e := Bindings(es[..|es| - 1]), es[|es| - 1];
      if e.inum == 0 then m else m[e.name := e.inum]
  }

  // In a directory with unique names, the bindings are the used entries.
  lemma BindingsAre(es: seq<Dirent>, k: seq<Byte>, v: nat)
    requires UniqueNames(es)
    ensures Has(es, k, v) <==> k in Bindings(es) && Bindings(es)[k] == v
  {
    if Has(es, k, v) {
      var i :| 0 <= i < |es| && es[i] == Dirent(v, k);
      assert Has(es, k, Bindings(es)[k]);
      var j :| 0 <= j < |es| && es[j] == Dirent(Bindings(es)[k], k);
    }
  }

  lemma BoundNames(es: seq<Dirent>, k: seq<Byte>)
    requires UniqueNames(es)
    ensures k in Bindings(es) ==> Has(es, k, Bindings(es)[k])
  {
  }

  // The directory with entry i set to e; i may be one past the end.
  function Put(es: seq<Dirent>, i: nat, e: Dirent): seq<Dirent>
    requires i <= |es|
  {
    if i < |es| then es[i := e] else es + [e]
  }

  lemma HasAdded(es: seq<Dirent>, i: nat, e: Dirent, k: seq<Byte>, v: nat)
    requires i <= |es| && (i < |es| ==> es[i].inum == 0) && e.inum != 0
    ensures Has(Put(es, i, e), k, v) <==> Has(es, k, v) || e == Dirent(v, k)
  {
    var fs := Put(es, i, e);
    assert fs[i] == e;
    if Has(es, k, v) {
      var j :| 0 <= j < |es| && es[j] == Dirent(v, k);
      assert fs[j] == Dirent(v, k);
    }
  }

  lemma HasRemoved(es: seq<Dirent>, i: nat, e: Dirent, k: seq<Byte>, v: nat)
    requires UniqueNames(es) && i < |es| && es[i].inum != 0 && e.inum == 0
    ensures Has(Put(es, i, e), k, v) <==> Has(es, k, v) && k != es[i].name
  {
    var fs := Put(es, i, e);
    if Has(es, k, v) && k != es[i].name {
      var j :| 0 <= j < |es| && es[j] == Dirent(v, k);
      assert fs[j] == Dirent(v, k);
    }
  }

  lemma NotBound(es: seq<Dirent>, k: seq<Byte>, i: nat)
    requires k !in Bindings(es) && i < |es| && es[i].inum != 0
    ensures es[i].name != k
  {
  }

  // Putting a free entry, or one past the end, to use adds one binding.
  lemma BindingAdded(es: seq<Dirent>, i: nat, e: Dirent)
    requires UniqueNames(es) && i <= |es| && (i < |es| ==> es[i].inum == 0) && e.inum != 0
    requires e.name !in Bindings(es)
    ensures UniqueNames(Put(es, i, e))
    ensures Bindings(Put(es, i, e)) == Bindings(es)[e.name := e.inum]
  {
    hide Bindings, Has;
    var fs := Put(es, i, e);
    forall j | 0 <= j < |es| && es[j].inum != 0 ensures es[j].name != e.name { NotBound(es, e.name, j); }
    assert UniqueNames(fs);
    var m, m' := Bindings(es)[e.name := e.inum], Bindings(fs);
    forall k | k in m' ensures k in m && m'[k] == m[k] {
      BoundNames(fs, k);
      HasAdded(es, i, e, k, m'[k]);
      BindingsAre(es, k, m'[k]);
    }
    forall k | k in m ensures k in m' {
      BindingsAre(es, k, m[k]);
      HasAdded(es, i, e, k, m[k]);
      BindingsAre(fs, k, m[k]);
    }
  }

  // Clearing a used entry removes its binding.
  lemma BindingRemoved(es: seq<Dirent>, i: nat, e: Dirent)
    requires UniqueNames(es) && i < |es| && es[i].inum != 0 && e.inum == 0
    ensures UniqueNames(Put(es, i, e)) && Bindings(Put(es, i, e)) == Bindings(es) - {es[i].name}
  {
    hide Bindings, Has;
    var fs := Put(es, i, e);
    assert UniqueNames(fs);
    var m, m' := Bindings(es) - {es[i].name}, Bindings(fs);
    forall k | k in m' ensures k in m && m'[k] == m[k] {
      BoundNames(fs, k);
      HasRemoved(es, i, e, k, m'[k]);
      BindingsAre(es, k, m'[k]);
    }
    forall k | k in m ensures k in m' {
      BindingsAre(es, k, m[k]);
      HasRemoved(es, i, e, k, m[k]);
      BindingsAre(fs, k, m[k]);
    }
  }

  // ---- Writing an entry ----

  lemma ChunkSpliced(data: seq<Byte>, i: nat, b: seq<Byte>, j: nat)
    requires |b| == DESIZE && DESIZE * i <= |data| && (DESIZE * i < |data| ==> DESIZE * i + DESIZE <= |data|)
    requires DESIZE * j + DESIZE <= |data| || j == i
    ensures var r := Splice(data, DESIZE * i, b);
      DESIZE * j + DESIZE <= |r| && Chunk(r, j) == if j == i then b else Chunk(data, j)
  {
    var r := Splice(data, DESIZE * i, b);
    assert |r| >= |data| && |r| >= DESIZE * i + DESIZE;
    if j < i {
      assert DESIZE * j + DESIZE <= DESIZE * i;
    } else if j > i {
      assert DESIZE * i + DESIZE <= DESIZE * j;
    }
  }

  lemma EntriesSpliced(data: seq<Byte>, i: nat, b: seq<Byte>)
    requires Whole(data) && |b| == DESIZE && i <= |Entries(data)|
    ensures DESIZE * i <= |data|
    ensures var r := Splice(data, DESIZE * i, b);
      Whole(r) && Entries(r) == Put(Entries(data), i, Decode(b))
  {
    var n := |data| / DESIZE;
    assert |data| == DESIZE * n;
    var r := Splice(data, DESIZE * i, b);
    assert |r| == if i < n then |data| else |data| + DESIZE;
    assert |r| / DESIZE == if i < n then n else n + 1;
    forall j | 0 <= j < |r| / DESIZE ensures Entries(r)[j] == Put(Entries(data), i, Decode(b))[j] {
      ChunkSpliced(data, i, b, j);
    }
  }

  // ---- The operations ----

  datatype LinkResult = Linked | Exists | Panic

  // The first used entry with the name, or |es|.
  function Find(es: seq<Dirent>, k: seq<Byte>, i: nat): (j: nat)
    requires i <= |es|
    ensures i <= j <= |es|
    ensures forall h | i <= h < j :: !(es[h].inum != 0 && es[h].name == k)
    ensures j < |es| ==> es[j].inum != 0 && es[j].name == k
    decreases |es| - i
  {
    if i == |es| || (es[i].inum != 0 && es[i].name == k) then i else Find(es, k, i + 1)
  }

  lemma FindIsLookup(es: seq<Dirent>, k: seq<Byte>)
    requires UniqueNames(es)
    ensures k in Bindings(es) <==> Find(es, k, 0) < |es|
    ensures k in Bindings(es) ==> Bindings(es)[k] == es[Find(es, k, 0)].inum
  {
    var i := Find(es, k, 0);
    if i < |es| {
      assert Dirent(es[i].inum, k) == es[i];
      BindingsAre(es, k, es[i].inum);
    } else if k in Bindings(es) {
      BoundNames(es, k);
    }
  }

  // In a directory's bytes: the 16 at 16 * i have the name and are in use.
  predicate Named(data: seq<Byte>, i: nat, name: seq<Byte>) {
    var at := 16 * i;
    && at + 16 <= |data| && (data[at] != 0 || data[at + 1] != 0)
    && Cut(data[at + 2..at + 16], 14) == Cut(name, 14)
  }

  predicate InUse(data: seq<Byte>, i: nat) {
    16 * i + 16 <= |data| && (data[16 * i] != 0 || data[16 * i + 1] != 0)
  }

  // Entry i is the first that is not in use, or one past the end.
  predicate FirstFree(data: seq<Byte>, i: nat) {
    16 * i <= |data| && !InUse(data, i) && forall j | 0 <= j < i :: InUse(data, j)
  }

  lemma FirstFreeIs(data: seq<Byte>, i: nat)
    requires Whole(data) && i <= |Entries(data)| && (i < |Entries(data)| ==> Entries(data)[i].inum == 0)
    requires forall j | 0 <= j < i :: Entries(data)[j].inum != 0
    ensures FirstFree(data, i)
  {
    hide Named;
    if i < |Entries(data)| { EntryBytes(data, i, []); }
    forall j | 0 <= j < i ensures InUse(data, j) { EntryBytes(data, j, []); }
  }

  // The name as it stands in an entry: 14 bytes, NULs after it.
  function Padded(name: seq<Byte>): (s: seq<Byte>)
    ensures |s| == 14
  {
    Cut(name, 14) + seq(14 - |Cut(name, 14)|, _ => 0)
  }

  lemma PaddedIs(name: seq<Byte>, s: seq<Byte>)
    requires |s| == DIRSIZ && Cut(s, DIRSIZ) == Cut(name, DIRSIZ)
    requires forall i | |Cut(name, DIRSIZ)| <= i < DIRSIZ :: s[i] == 0
    ensures s == Padded(name)
  {
    assert s[..|Cut(s, DIRSIZ)|] == Cut(s, DIRSIZ);
  }

  // data' has an entry for name where data has its first free one.
  ghost predicate Overwrites(data: seq<Byte>, data': seq<Byte>, name: seq<Byte>, inum: nat) {
    exists i: nat ::
      FirstFree(data, i) && data' == Splice(data, 16 * i, [inum % 256, inum / 256 % 256] + Padded(name))
  }

  predicate NoneNamed(data: seq<Byte>, n: nat, name: seq<Byte>) {
    forall i | 0 <= i < n :: !Named(data, i, name)
  }

  lemma EntryBytes(data: seq<Byte>, i: nat, name: seq<Byte>)
    requires i < |Entries(data)|
    ensures 16 * i + 16 <= |data|
    ensures var e := Entries(data)[i];
      && (Named(data, i, name) <==> e.inum != 0 && e.name == Cut(name, DIRSIZ))
      && e.inum == data[16 * i] as int + 256 * (data[16 * i + 1] as int)
  {
    hide Cut;
    var b := Chunk(data, i);
    assert b[0] == data[16 * i] && b[1] == data[16 * i + 1] && b[2..] == data[16 * i + 2..16 * i + 16];
  }

  lemma NameField(de: seq<Byte>)
    requires |de| == DESIZE
    ensures Decode(de).name == Cut(de[2..], DIRSIZ)
  {
  }

  lemma Sixteenth(i: nat)
    ensures 16 * i % 16 == 0 && 16 * i / 16 == i
  {
  }

  lemma NotBefore(data: seq<Byte>, name: seq<Byte>, n: nat)
    requires n <= |Entries(data)| && Find(Entries(data), Cut(name, DIRSIZ), 0) >= n
    ensures NoneNamed(data, n, name)
  {
    hide Named, Decode, Cut;
    forall i | 0 <= i < n ensures !Named(data, i, name) { EntryBytes(data, i, name); }
  }

  // A directory's bytes, well formed.
  ghost predicate DirOk(data: seq<Byte>) {
    Whole(data) && |data| <= MAXFILE * BSIZE && UniqueNames(Entries(data))
  }

  // readi() of one entry.
  method ReadEntry(data: seq<Byte>, i: nat) returns (de: seq<Byte>)
    requires Whole(data) && i < |data| / DESIZE
    ensures |de| == DESIZE && Decode(de) == Entries(data)[i]
  {
    de := data[DESIZE * i..DESIZE * i + DESIZE];
  }

  // dirlookup(): the inode number for name, or 0, and the entry's offset.
  method Dirlookup(data: seq<Byte>, name: seq<Byte>) returns (inum: nat, off: nat)
    requires DirOk(data)
    ensures var k, m := Cut(name, DIRSIZ), Bindings(Entries(data));
      (k in m <==> inum != 0) && (k in m ==> inum == m[k])
    ensures inum != 0 ==> off == DESIZE * Find(Entries(data), Cut(name, DIRSIZ), 0) < |data|
    // In the directory's bytes: the first used entry with the name.
    ensures inum != 0 ==>
              && off % 16 == 0 && off + 16 <= |data| && Named(data, off / 16, name)
              && inum == data[off] as int + 256 * (data[off + 1] as int)
    ensures NoneNamed(data, if inum != 0 then off / 16 else |data| / 16, name)
  {
    hide Named, NoneNamed, Cut, Bindings, Decode, Chunk;
    ghost var es, k := Entries(data), Cut(name, DIRSIZ);
    FindIsLookup(es, k);
    var i := 0;
    while i < |data| / DESIZE
      invariant 0 <= i <= |es| && Find(es, k, 0) == Find(es, k, i)
    {
      var de := ReadEntry(data, i);
      var e := Decode(de);
      if e.inum != 0 {
        NameField(de);
        var c := Strncmp(name, de[2..], DIRSIZ);
        if c == 0 {
          NotBefore(data, name, i);
          EntryBytes(data, i, name);
          Sixteenth(i);
          return e.inum, DESIZE * i;
        }
      }
      i := i + 1;
    }
    NotBefore(data, name, i);
    return 0, 0;
  }

  class Directory {
    var data: seq<Byte>       // the content of the directory's inode

    ghost predicate Valid()
      reads this
    {
      DirOk(data)
    }

    ghost function Contents(): map<seq<Byte>, nat>
      reads this
    {
      Bindings(Entries(data))
    }

    // The first free entry, or one past the end.
    method FindFree() returns (i: nat)
      requires Valid()
      ensures i <= |Entries(data)| && (i < |Entries(data)| ==> Entries(data)[i].inum == 0)
      ensures forall j | 0 <= j < i :: Entries(data)[j].inum != 0
    {
      hide UniqueNames, Decode;
      var n := |data| / DESIZE;
      ghost var es := Entries(data);
      i := 0;
      while i < n
        invariant 0 <= i <= n == |es| && forall j | 0 <= j < i :: es[j].inum != 0
      {
        var de := ReadEntry(data, i);
        if Decode(de).inum == 0 { return; }
        i := i + 1;
      }
    }

    // writei() of one entry: it fails past the largest file size.
    method WriteEntry(i: nat, de: seq<Byte>) returns (ok: bool)
      requires Whole(data) && |data| <= MAXFILE * BSIZE && |de| == DESIZE && i <= |Entries(data)|
      modifies this
      ensures ok <==> i < |Entries(old(data))| || |old(data)| < MAXFILE * BSIZE
      ensures if ok then Entries(data) == Put(Entries(old(data)), i, Decode(de)) else data == old(data)
      ensures DESIZE * i <= |old(data)| && (ok ==> data == Splice(old(data), DESIZE * i, de))
      ensures Whole(data) && |data| <= MAXFILE * BSIZE
    {
      EntriesSpliced(data, i, de);
      ok := DESIZE * i + DESIZE <= MAXFILE * BSIZE;
      if ok { data := Splice(data, DESIZE * i, de); }
    }

    // dirlink(): one more binding, for the name cut to DIRSIZ bytes.  It
    // panics when the directory is full.
    method Dirlink(name: seq<Byte>, inum: nat) returns (r: LinkResult)
      requires Valid()
      modifies this
      ensures Valid()
      ensures r.Exists? <==> Cut(name, DIRSIZ) in old(Contents())
      ensures !r.Linked? ==> data == old(data)
      ensures r.Panic? <==>
                && Cut(name, DIRSIZ) !in old(Contents()) && |old(data)| == MAXFILE * BSIZE
                && forall i | 0 <= i < |Entries(old(data))| :: Entries(old(data))[i].inum != 0
      // In the directory's bytes: the first entry not in use is overwritten.
      ensures r.Linked? ==> Overwrites(old(data), data, name, inum)
      ensures r.Linked? ==>
                Contents() == if inum % 0x1_0000 == 0 then old(Contents())
                              else old(Contents())[Cut(name, DIRSIZ) := inum % 0x1_0000]
    {
      hide Bindings, Has, Decode, Padded, FirstFree, Named, NoneNamed;
      var found, _ := Dirlookup(data, name);
      if found != 0 { return Exists; }
      var i := FindFree();
      FirstFreeIs(data, i);
      var field := Strncpy(name, DIRSIZ);
      PaddedIs(name, field);
      var de := Encode(inum, field);
      ghost var es := Entries(data);
      var ok := WriteEntry(i, de);
      if !ok { return Panic; }
      EntryPut(es, i, Decode(de));
      return Linked;
    }

    // unlink: zero the entry that dirlookup() finds.
    method Unlink(name: seq<Byte>) returns (inum: nat)
      requires Valid()
      modifies this
      ensures Valid()
      ensures inum == if Cut(name, DIRSIZ) in old(Contents()) then old(Contents())[Cut(name, DIRSIZ)] else 0
      ensures Contents() == old(Contents()) - {Cut(name, DIRSIZ)}
    {
      hide Bindings, Has, Decode;
      var off;
      inum, off := Dirlookup(data, name);
      if inum == 0 { return; }
      ghost var es := Entries(data);
      var i := off / DESIZE;
      var de: seq<Byte> := seq(DESIZE, _ => 0);
      ZeroEntry(de);
      var _ := WriteEntry(i, de);
      BindingRemoved(es, i, Decode(de));
    }
  }

  lemma ZeroEntry(de: seq<Byte>)
    requires |de| == DESIZE && de[0] == 0 && de[1] == 0
    ensures Decode(de).inum == 0
  {
  }

  // Writing e over a free entry.
  lemma EntryPut(es: seq<Dirent>, i: nat, e: Dirent)
    requires UniqueNames(es) && i <= |es| && (i < |es| ==> es[i].inum == 0) && e.name !in Bindings(es)
    ensures UniqueNames(Put(es, i, e))
    ensures Bindings(Put(es, i, e)) == if e.inum == 0 then Bindings(es) else Bindings(es)[e.name := e.inum]
  {
    if e.inum == 0 { FreeRewritten(es, i, e); } else { BindingAdded(es, i, e); }
  }

  lemma FreeRewritten(es: seq<Dirent>, i: nat, e: Dirent)
    requires UniqueNames(es) && i <= |es| && (i < |es| ==> es[i].inum == 0) && e.inum == 0
    ensures UniqueNames(Put(es, i, e)) && Bindings(Put(es, i, e)) == Bindings(es)
  {
    hide Bindings, Has;
    var fs := Put(es, i, e);
    assert UniqueNames(fs);
    var m, m' := Bindings(es), Bindings(fs);
    forall k | k in m' ensures k in m && m'[k] == m[k] {
      BoundNames(fs, k);
      HasKept(es, i, e, k, m'[k]);
      BindingsAre(es, k, m'[k]);
    }
    forall k | k in m ensures k in m' {
      BoundNames(es, k);
      HasKept(es, i, e, k, m[k]);
      BindingsAre(fs, k, m[k]);
    }
  }

  lemma HasKept(es: seq<Dirent>, i: nat, e: Dirent, k: seq<Byte>, v: nat)
    requires i <= |es| && (i < |es| ==> es[i].inum == 0) && e.inum == 0
    ensures Has(Put(es, i, e), k, v) <==> Has(es, k, v)
  {
    var fs := Put(es, i, e);
    if Has(es, k, v) {
      var j :| 0 <= j < |es| && es[j] == Dirent(v, k);
      assert fs[j] == Dirent(v, k);
    }
  }
}
