// C strings as string.c handles them, and file names: at most DIRSIZ bytes,
// cut at the first NUL.
module Names {
  import opened Blocks

  const DIRSIZ: nat := 14

  // The byte at s + i: a NUL follows the bytes we know of.
  function CharAt(s: seq<Byte>, i: nat): Byte {
    if i < |s| then s[i] else 0
  }

  // The bytes of s before its first NUL, at most n of them.
  function Cut(s: seq<Byte>, n: nat): (r: seq<Byte>)
    ensures |r| <= n && |r| <= |s| && r == s[..|r|] && 0 !in r
    ensures |r| < n ==> CharAt(s, |r|) == 0
    decreases n
  {
    if n == 0 || CharAt(s, 0) == 0 then [] else [s[0]] + Cut(s[1..], n - 1)
  }

  lemma {:induction false} CutIs(s: seq<Byte>, n: nat, r: seq<Byte>)
    requires |r| <= n && |r| <= |s| && r == s[..|r|] && 0 !in r && (|r| < n ==> CharAt(s, |r|) == 0)
    ensures Cut(s, n) == r
    decreases n
  {
    if r != [] {
      assert r[0] != 0;
      assert s[1..][..|r| - 1] == r[1..];
      CutIs(s[1..], n - 1, r[1..]);
    }
  }

  // strncmp()
  method Strncmp(p: seq<Byte>, q: seq<Byte>, n: nat) returns (r: int)
    ensures r == 0 <==> Cut(p, n) == Cut(q, n)
  {
    var i := 0;
    while i < n && CharAt(p, i) != 0 && CharAt(p, i) == CharAt(q, i)
      invariant 0 <= i <= n && i <= |p| && i <= |q| && p[..i] == q[..i] && 0 !in p[..i]
    {
      i := i + 1;
    }
    if i == n {
      CutIs(p, n, p[..n]);
      CutIs(q, n, q[..n]);
      return 0;
    }
    if CharAt(p, i) == CharAt(q, i) {
      CutIs(p, n, p[..i]);
      CutIs(q, n, q[..i]);
    } else {
      CutDiffer(p, q, n, i);
    }
    r := CharAt(p, i) - CharAt(q, i);
  }

  // What comes after i bytes without a NUL.
  lemma CutGoesOn(s: seq<Byte>, n: nat, i: nat)
    requires i < n && i <= |s| && 0 !in s[..i]
    ensures |Cut(s, n)| >= i
    ensures |Cut(s, n)| > i <==> CharAt(s, i) != 0
    ensures |Cut(s, n)| > i ==> Cut(s, n)[i] == CharAt(s, i)
  {
    assert forall j | 0 <= j < i :: s[j] == s[..i][j];
  }

  lemma CutDiffer(p: seq<Byte>, q: seq<Byte>, n: nat, i: nat)
    requires i < n && i <= |p| && i <= |q| && p[..i] == q[..i] && 0 !in p[..i]
    requires CharAt(p, i) != CharAt(q, i)
    ensures Cut(p, n) != Cut(q, n)
  {
    CutGoesOn(p, n, i);
    CutGoesOn(q, n, i);
  }

  // strncpy(): the bytes of t before its NUL, then NULs, n in all.
  method Strncpy(t: seq<Byte>, n: nat) returns (s: seq<Byte>)
    ensures |s| == n && Cut(s, n) == Cut(t, n)
    ensures forall i | |Cut(t, n)| <= i < n :: s[i] == 0
  {
    s := [];
    while |s| < n && CharAt(t, |s|) != 0
      invariant |s| <= n && |s| <= |t| && s == t[..|s|] && 0 !in s
      decreases n - |s|
    {
      s := s + [t[|s|]];
    }
    ghost var r := s;
    CutIs(t, n, r);
    while |s| < n
      invariant |r| <= |s| <= n && s[..|r|] == r && forall i | |r| <= i < |s| :: s[i] == 0
      decreases n - |s|
    {
      s := s + [0];
    }
    CutIs(s, n, r);
  }
}
