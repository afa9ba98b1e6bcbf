// Path names (fs.c): skipelem takes one element off, namex walks the tree.
module Path {
  import opened Blocks
  import opened Names
  import opened Dir
  import opened Options

  const SLASH: Byte := 47
  const ROOTINO: nat := 1

  // A C string's bytes: no NUL among them.
  predicate IsPath(p: seq<Byte>) {
    0 !in p
  }

  // ---- What a path means: its maximal runs of bytes other than '/' ----

  // p[i..j] is a maximal run.
  predicate Run(p: seq<Byte>, i: nat, j: nat) {
    && i < j <= |p| && (forall k | i <= k < j :: p[k] != SLASH)
    && (i == 0 || p[i - 1] == SLASH) && (j == |p| || p[j] == SLASH)
  }

  // Where the first '/' (or other byte) from i on is, or |p|.
  function SlashFrom(p: seq<Byte>, i: nat): (j: nat)
    requires i <= |p|
    ensures i <= j <= |p| && (forall k | i <= k < j :: p[k] != SLASH) && (j < |p| ==> p[j] == SLASH)
    decreases |p| - i
  {
    if i == |p| || p[i] == SLASH then i else SlashFrom(p, i + 1)
  }

  function NonSlashFrom(p: seq<Byte>, i: nat): (j: nat)
    requires i <= |p|
    ensures i <= j <= |p| && (forall k | i <= k < j :: p[k] == SLASH) && (j < |p| ==> p[j] != SLASH)
    decreases |p| - i
  {
    if i == |p| || p[i] != SLASH then i else NonSlashFrom(p, i + 1)
  }

  // The runs of p from i on, each with its place.
  function Runs(p: seq<Byte>, i: nat): (r: seq<(nat, nat)>)
    requires i <= |p|
    decreases |p| - i
  {
    var a := NonSlashFrom(p, i);
    if a == |p| then []
    else
      var b := SlashFrom(p, a);
      assert b > a;
      [(a, b)] + Runs(p, b)
  }

  function Elements(p: seq<Byte>, i: nat): (r: seq<seq<Byte>>)
    requires i <= |p|
    ensures |r| == |Runs(p, i)|
    decreases |p| - i
  {
    var a := NonSlashFrom(p, i);
    if a == |p| then []
    else
      var b := SlashFrom(p, a);
      assert b > a;
      [p[a..b]] + Elements(p, b)
  }

  // Runs lists exactly the maximal runs that begin at or after i, in order.
  lemma {:induction false} RunsAreMaximal(p: seq<Byte>, i: nat, a: nat, b: nat)
    requires i <= |p| && (i == 0 || i == |p| || p[i] == SLASH || p[i - 1] == SLASH)
    ensures (a, b) in Runs(p, i) <==> i <= a && Run(p, a, b)
    decreases |p| - i
  {
    var c := NonSlashFrom(p, i);
    if c < |p| {
      var d := SlashFrom(p, c);
      RunsAreMaximal(p, d, a, b);
      assert Run(p, c, d) by { if c > i { assert p[c - 1] == SLASH; } }
      RunAfter(p, i, c, d, a, b);
      assert Runs(p, i) == [(c, d)] + Runs(p, d);
    } else if i <= a < |p| {
      assert p[a] == SLASH && !Run(p, a, b);
    }
  }

  // A run that begins at or after i is the next one, or begins after it.
  lemma RunAfter(p: seq<Byte>, i: nat, c: nat, d: nat, a: nat, b: nat)
    requires i <= c < d <= |p| && Run(p, c, d) && (forall k | i <= k < c :: p[k] == SLASH)
    ensures i <= a && Run(p, a, b) <==> (a, b) == (c, d) || (d <= a && Run(p, a, b))
  {
    if i <= a < c {
      assert p[a] == SLASH && !Run(p, a, b);
    } else if c < a < d {
      assert p[a - 1] != SLASH && !Run(p, a, b);
    } else if a == c && b < d {
      assert p[b] != SLASH || b < a;
      assert !Run(p, a, b);
    } else if a == c && d < b <= |p| {
      assert p[d] == SLASH && !Run(p, a, b);
    }
  }

  lemma {:induction false} RunsInOrder(p: seq<Byte>, i: nat, k: nat, l: nat)
    requires i <= |p| && k < l < |Runs(p, i)|
    ensures i <= Runs(p, i)[k].0 < Runs(p, i)[k].1 <= Runs(p, i)[l].0
    decreases l
  {
    var b := SlashFrom(p, NonSlashFrom(p, i));
    if k > 0 {
      RunsInOrder(p, b, k - 1, l - 1);
    } else {
      RunsFrom(p, b, l - 1);
    }
  }

  lemma {:induction false} RunsFrom(p: seq<Byte>, i: nat, k: nat)
    requires i <= |p| && k < |Runs(p, i)|
    ensures i <= Runs(p, i)[k].0
    decreases k
  {
    if k > 0 { RunsFrom(p, SlashFrom(p, NonSlashFrom(p, i)), k - 1); }
  }

  lemma {:induction false} ElementAt(p: seq<Byte>, i: nat, k: nat)
    requires i <= |p| && k < |Elements(p, i)|
    ensures var (a, b) := Runs(p, i)[k]; a <= b <= |p| && Elements(p, i)[k] == p[a..b]
    decreases k
  {
    if k > 0 { ElementAt(p, SlashFrom(p, NonSlashFrom(p, i)), k - 1); }
  }

  // ---- skipelem ----

  // Past the slashes at i.
  method SkipSlashes(p: seq<Byte>, i: nat) returns (j: nat)
    requires i <= |p|
    ensures j == NonSlashFrom(p, i)
  {
    j := i;
    while j < |p| && p[j] == SLASH
      invariant i <= j <= |p| && NonSlashFrom(p, i) == NonSlashFrom(p, j)
    {
      j := j + 1;
    }
  }

  // The next element of p from i on, cut to DIRSIZ bytes, and where the one
  // after it begins.
  method Skipelem(p: seq<Byte>, i: nat) returns (r: Option<(nat, seq<Byte>)>)
    requires IsPath(p) && i <= |p|
    ensures r.None? <==> Elements(p, i) == []
    ensures r.Some? ==>
              && i < r.value.0 <= |p|
              && Elements(p, r.value.0) == Elements(p, i)[1..]
              && r.value.1 == Cut(Elements(p, i)[0], DIRSIZ)
              && (r.value.0 == |p| <==> |Elements(p, i)| == 1)
  {
    var s := SkipSlashes(p, i);
    if s == |p| { return None; }
    var j := s;
    while j < |p| && p[j] != SLASH
      invariant s <= j <= |p| && SlashFrom(p, s) == SlashFrom(p, j)
    {
      j := j + 1;
    }
    var name := if j - s >= DIRSIZ then p[s..s + DIRSIZ] else p[s..j];
    CutRun(p, s, j);
    var k := SkipSlashes(p, j);
    SkippedSlashes(p, j, k);
    return Some((k, name));
  }

  lemma CutRun(p: seq<Byte>, s: nat, j: nat)
    requires IsPath(p) && s <= j <= |p|
    ensures Cut(p[s..j], DIRSIZ) == if j - s >= DIRSIZ then p[s..s + DIRSIZ] else p[s..j]
  {
    var name := if j - s >= DIRSIZ then p[s..s + DIRSIZ] else p[s..j];
    forall k | 0 <= k < |name| ensures name[k] == p[s..j][k] != 0 {
      assert p[s..j][k] == p[s + k] && p[s + k] in p;
    }
    assert name == p[s..j][..|name|];
    CutIs(p[s..j], DIRSIZ, name);
  }

  lemma SkippedSlashes(p: seq<Byte>, j: nat, k: nat)
    requires j <= |p| && k == NonSlashFrom(p, j)
    ensures Elements(p, j) == Elements(p, k)
    ensures k == |p| <==> Elements(p, k) == []
  {
    assert NonSlashFrom(p, k) == k;
  }

  // ---- namex ----

  // What namex reads of an inode: a directory's bytes, or not a directory.
  datatype Node = DirNode(data: seq<Byte>) | OtherNode

  type Tree = map<nat, Node>

  // The map that a node is; empty if it is not a directory.
  function NamesIn(t: Tree, ip: nat): map<seq<Byte>, nat> {
    if ip in t && t[ip].DirNode? then Bindings(Entries(t[ip].data)) else map[]
  }

  // Directories are well formed and every name leads to an inode.
  ghost predicate TreeOk(t: Tree) {
    && (forall i | i in t && t[i].DirNode? :: DirOk(t[i].data))
    && (forall i, k | i in t && k in NamesIn(t, i) :: NamesIn(t, i)[k] in t)
  }

  // Looking up one name after another.
  function Walk(t: Tree, ip: nat, names: seq<seq<Byte>>): Option<nat>
    decreases names
  {
    if names == [] then Some(ip)
    else if Cut(names[0], DIRSIZ) !in NamesIn(t, ip) then None
    else Walk(t, NamesIn(t, ip)[Cut(names[0], DIRSIZ)], names[1..])
  }

  function Start(p: seq<Byte>, cwd: nat): nat {
    if CharAt(p, 0) == SLASH then ROOTINO else cwd
  }

  // The inode that namei() finds, and the directory and last name that
  // nameiparent() finds.
  function Target(t: Tree, p: seq<Byte>, cwd: nat): Option<nat> {
    Walk(t, Start(p, cwd), Elements(p, 0))
  }

  function Parent(t: Tree, p: seq<Byte>, cwd: nat): Option<(nat, seq<Byte>)> {
    ParentOf(t, Start(p, cwd), Elements(p, 0))
  }

  function ParentOf(t: Tree, ip: nat, es: seq<seq<Byte>>): Option<(nat, seq<Byte>)> {
    if es == [] then None
    else
      var r := Walk(t, ip, es[..|es| - 1]);
      if r.Some? && r.value in t && t[r.value].DirNode?
      then Some((r.value, Cut(es[|es| - 1], DIRSIZ))) else None
  }

  // A path that begins with '/' is looked up from the root, whatever the
  // current directory, and any other from the current directory.
  lemma AbsolutePath(t: Tree, p: seq<Byte>, cwd: nat, other: nat)
    requires p != [] && p[0] == 47
    ensures Target(t, p, cwd) == Target(t, p, other) == Walk(t, 1, Elements(p, 0))
    ensures Parent(t, p, cwd) == Parent(t, p, other) == ParentOf(t, 1, Elements(p, 0))
  {
  }

  lemma RelativePath(t: Tree, p: seq<Byte>, cwd: nat)
    requires p == [] || p[0] != 47
    ensures Target(t, p, cwd) == Walk(t, cwd, Elements(p, 0))
    ensures Parent(t, p, cwd) == ParentOf(t, cwd, Elements(p, 0))
  {
  }

  lemma ParentStep(t: Tree, ip: nat, es: seq<seq<Byte>>)
    requires |es| > 1
    ensures var k := Cut(es[0], DIRSIZ);
      ParentOf(t, ip, es) ==
        if k in NamesIn(t, ip) then ParentOf(t, NamesIn(t, ip)[k], es[1..]) else None
  {
    hide Bindings, Entries, NamesIn, Cut;
    var init, rest := es[..|es| - 1], es[1..];
    assert init[0] == es[0] && init[1..] == rest[..|rest| - 1] && rest[|rest| - 1] == es[|es| - 1];
  }

  lemma {:induction false} WalkAppend(t: Tree, ip: nat, names: seq<seq<Byte>>, last: seq<Byte>)
    ensures Walk(t, ip, names + [last]) ==
              match Walk(t, ip, names) {
                case None => None
                case Some(d) => Walk(t, d, [last])
              }
    decreases |names|
  {
    if names == [] {
      assert names + [last] == [last];
    } else {
      assert (names + [last])[1..] == names[1..] + [last];
      if Cut(names[0], DIRSIZ) in NamesIn(t, ip) {
        WalkAppend(t, NamesIn(t, ip)[Cut(names[0], DIRSIZ)], names[1..], last);
      }
    }
  }

  // A path's target is what its parent binds its last name to.
  lemma TargetIsInParent(t: Tree, p: seq<Byte>, cwd: nat)
    requires Elements(p, 0) != []
    ensures Target(t, p, cwd) ==
              match Parent(t, p, cwd) {
                case None => None
                case Some(d) => if d.1 in NamesIn(t, d.0) then Some(NamesIn(t, d.0)[d.1]) else None
              }
  {
    hide Bindings, Entries, Elements, Walk, NamesIn;
    var es := Elements(p, 0);
    var n := |es| - 1;
    assert es == es[..n] + [es[n]];
    WalkAppend(t, Start(p, cwd), es[..n], es[n]);
    var d := Walk(t, Start(p, cwd), es[..n]);
    if d.Some? { WalkOne(t, d.value, es[n]); }
  }

  lemma WalkOne(t: Tree, d: nat, last: seq<Byte>)
    ensures var k, m := Cut(last, DIRSIZ), NamesIn(t, d); Walk(t, d, [last]) == if k in m then Some(m[k]) else None
    ensures !(d in t && t[d].DirNode?) ==> Walk(t, d, [last]) == None
  {
    hide Bindings, Entries;
    var k, m := Cut(last, DIRSIZ), NamesIn(t, d);
    if k in m { assert Walk(t, m[k], [last][1..]) == Some(m[k]); }
  }

  // A name that is cut already stays as it is.
  lemma CutTwice(s: seq<Byte>)
    ensures Cut(Cut(s, DIRSIZ), DIRSIZ) == Cut(s, DIRSIZ)
  {
    CutIs(Cut(s, DIRSIZ), DIRSIZ, Cut(s, DIRSIZ));
  }

  // namex()
  method Namex(t: Tree, p: seq<Byte>, cwd: nat, nameiparent: bool) returns (r: Option<(nat, seq<Byte>)>)
    requires IsPath(p) && TreeOk(t) && cwd in t && ROOTINO in t
    ensures nameiparent ==> r == Parent(t, p, cwd)
    ensures !nameiparent ==> (r.Some? <==> Target(t, p, cwd).Some?)
    ensures !nameiparent && r.Some? ==> Some(r.value.0) == Target(t, p, cwd)
    ensures var start := if p != [] && p[0] == 47 then 1 else cwd;
            Target(t, p, cwd) == Walk(t, start, Elements(p, 0)) &&
            Parent(t, p, cwd) == ParentOf(t, start, Elements(p, 0))
  {
    hide Bindings, Entries, Cut;
    var ip := if CharAt(p, 0) == SLASH then ROOTINO else cwd;
    var i := 0;
    var name: seq<Byte> := [];
    while true
      invariant i <= |p| && ip in t
      invariant Walk(t, ip, Elements(p, i)) == Target(t, p, cwd)
      invariant nameiparent ==> ParentOf(t, ip, Elements(p, i)) == Parent(t, p, cwd)
      decreases |p| - i
    {
      ghost var es := Elements(p, i);
      var e := Skipelem(p, i);
      if e.None? { break; }
      i, name := e.value.0, e.value.1;
      if |es| > 1 { ParentStep(t, ip, es); }
      if !t[ip].DirNode? { return None; }
      if nameiparent && i == |p| { return Some((ip, name)); }
      var next, _ := Dirlookup(t[ip].data, name);
      CutTwice(es[0]);
      if next == 0 { return None; }
      ip := next;
    }
    if nameiparent { return None; }
    return Some((ip, name));
  }
}
