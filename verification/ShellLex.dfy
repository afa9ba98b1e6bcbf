// The shell's tokens (sh.c): gettoken and peek over the line, and the tokens
// of a printed token list.
module ShellLex {
  import opened Options
  import opened ShellSyntax

  // A word, as the pointers q and eq delimit it.
  datatype Span = Span(i: nat, j: nat)

  predicate IsSpace(c: char) {
    c == ' ' || c == '\t' || c == '\r' || c == '\n' || c == '\U{0B}'
  }

  predicate IsSymbol(c: char) {
    c == '<' || c == '|' || c == '>' || c == '&' || c == ';' || c == '(' || c == ')'
  }

  predicate WordChar(c: char) {
    !IsSpace(c) && !IsSymbol(c) && c != '\0'
  }

  // The line that the shell has read.
  predicate IsLine(s: string) {
    '\0' !in s
  }

  // ---- The tokens of a line ----

  function SkipSpace(s: string, i: nat): (j: nat)
    requires i <= |s|
    ensures i <= j <= |s| && (j < |s| ==> !IsSpace(s[j]))
    decreases |s| - i
  {
    if i == |s| || !IsSpace(s[i]) then i else SkipSpace(s, i + 1)
  }

  function WordEnd(s: string, i: nat): (j: nat)
    requires i <= |s|
    ensures i <= j <= |s| && (forall k | i <= k < j :: WordChar(s[k])) && (j < |s| ==> !WordChar(s[j]))
    decreases |s| - i
  {
    if i == |s| || !WordChar(s[i]) then i else WordEnd(s, i + 1)
  }

  // The token at a, which is not at a space, and where it ends.
  function TokenAt(s: string, a: nat): (r: (Token<Span>, nat))
    requires IsLine(s) && a < |s| && !IsSpace(s[a])
    ensures a < r.1 <= |s|
  {
    if s[a] == '>' && a + 1 < |s| && s[a + 1] == '>' then (Append, a + 2)
    else if IsSymbol(s[a]) then (Sym(s[a]), a + 1)
    else (Word(Span(a, WordEnd(s, a))), WordEnd(s, a))
  }

  function Lex(s: string, i: nat): seq<Token<Span>>
    requires IsLine(s) && i <= |s|
    decreases |s| - i
  {
    var a := SkipSpace(s, i);
    if a == |s| then []
    else
      var (t, b) := TokenAt(s, a);
      [t] + Lex(s, b)
  }

  lemma LexSkip(s: string, i: nat)
    requires IsLine(s) && i <= |s|
    ensures Lex(s, SkipSpace(s, i)) == Lex(s, i)
  {
    assert SkipSpace(s, SkipSpace(s, i)) == SkipSpace(s, i);
  }

  // A maximal run of word characters.
  predicate WordSpan(s: string, w: Span) {
    && w.i < w.j <= |s| && (forall k | w.i <= k < w.j :: WordChar(s[k]))
    && (w.j < |s| ==> !WordChar(s[w.j]))
  }

  predicate SpansOk(s: string, ts: seq<Token<Span>>) {
    forall k | 0 <= k < |ts| && ts[k].Word? :: WordSpan(s, ts[k].w)
  }

  lemma {:induction false} LexSpans(s: string, i: nat)
    requires IsLine(s) && i <= |s|
    ensures SpansOk(s, Lex(s, i))
    decreases |s| - i
  {
    var a := SkipSpace(s, i);
    if a < |s| {
      var (t, b) := TokenAt(s, a);
      LexSpans(s, b);
      assert t.Word? ==> WordEnd(s, a) > a;
    }
  }

  // ---- gettoken and peek ----

  method SkipSpaces(s: string, p: nat) returns (r: nat)
    requires p <= |s|
    ensures r == SkipSpace(s, p)
  {
    r := p;
    while r < |s| && IsSpace(s[r])
      invariant p <= r <= |s| && SkipSpace(s, p) == SkipSpace(s, r)
    {
      r := r + 1;
    }
  }

  // gettoken(): the next token, if any, and the place of the one after it.
  method Gettoken(s: string, p: nat) returns (t: Option<Token<Span>>, p': nat)
    requires IsLine(s) && p <= |s|
    ensures p <= p' <= |s|
    ensures t.None? <==> Lex(s, p) == []
    ensures t.Some? ==> p < p' && t.value == Lex(s, p)[0] && Lex(s, p') == Lex(s, p)[1..]
    ensures t.None? ==> Lex(s, p') == []
  {
    var q := SkipSpaces(s, p);
    if q == |s| { return None, q; }
    var e := q;
    if IsSymbol(s[q]) {
      e := q + 1;
      if s[q] == '>' && e < |s| && s[e] == '>' {
        e := e + 1;
        t := Some(Append);
      } else {
        t := Some(Sym(s[q]));
      }
    } else {
      while e < |s| && !IsSpace(s[e]) && !IsSymbol(s[e])
        invariant q <= e <= |s| && WordEnd(s, q) == WordEnd(s, e)
      {
        assert s[e] in s;
        e := e + 1;
      }
      t := Some(Word(Span(q, e)));
    }
    p' := SkipSpaces(s, e);
    LexSkip(s, e);
    assert TokenAt(s, q) == (t.value, e);
  }

  // The next token begins with one of the symbols toks.
  predicate Leads(ts: seq<Token<Span>>, toks: set<char>) {
    ts != [] && ((ts[0].Sym? && ts[0].c in toks) || (ts[0].Append? && '>' in toks))
  }

  method Peek(s: string, p: nat, toks: set<char>) returns (r: bool, p': nat)
    requires IsLine(s) && p <= |s| && forall c | c in toks :: IsSymbol(c)
    ensures p <= p' <= |s| && Lex(s, p') == Lex(s, p) && r == Leads(Lex(s, p), toks)
    ensures Lex(s, p) == [] ==> p' == |s|
  {
    p' := SkipSpaces(s, p);
    LexSkip(s, p);
    r := p' < |s| && s[p'] in toks;
    assert p' < |s| ==> s[p'] in s;
  }

  // ---- Printed tokens ----

  function Show(t: Token<string>): string {
    match t
    case Sym(c) => [c]
    case Append => ">>"
    case Word(w) => w
  }

  predicate Blank(g: string) {
    forall k | 0 <= k < |g| :: g[k] in {' ', '\t', '\r', '\n', '\U{0B}'}
  }

  // The tokens, with blanks before, between and after them.
  function Spaced(ts: seq<Token<string>>, gaps: seq<string>): string
    requires |gaps| == |ts| + 1
  {
    if ts == [] then gaps[0] else gaps[0] + (Show(ts[0]) + Spaced(ts[1..], gaps[1..]))
  }

  // Tokens that run together without a blank between them.
  predicate RunTogether(t: Token<string>, u: Token<string>) {
    (t.Word? && u.Word?) || (t == Sym('>') && (u == Sym('>') || u == Append))
  }

  predicate GoodSpacing(ts: seq<Token<string>>, gaps: seq<string>) {
    && |gaps| == |ts| + 1 && (forall k | 0 <= k < |gaps| :: Blank(gaps[k]))
    && forall k | 1 <= k < |ts| :: RunTogether(ts[k - 1], ts[k]) ==> gaps[k] != ""
  }

  predicate GoodToken(t: Token<string>) {
    match t
    case Sym(c) => IsSymbol(c)
    case Append => true
    case Word(w) => w != "" && forall k | 0 <= k < |w| :: WordChar(w[k])
  }

  function TextOf(s: string, w: Span): string {
    if w.i <= w.j <= |s| then s[w.i..w.j] else ""
  }

  function TokenText(s: string, t: Token<Span>): Token<string> {
    match t
    case Sym(c) => Sym(c)
    case Append => Append
    case Word(w) => Word(TextOf(s, w))
  }

  function Texts(s: string, ts: seq<Token<Span>>): (r: seq<Token<string>>)
    ensures |r| == |ts| && forall k | 0 <= k < |ts| :: r[k] == TokenText(s, ts[k])
  {
    seq(|ts|, k requires 0 <= k < |ts| => TokenText(s, ts[k]))
  }

  lemma {:induction false} SpacedIsLine(ts: seq<Token<string>>, gaps: seq<string>)
    requires |gaps| == |ts| + 1 && forall k | 0 <= k < |gaps| :: Blank(gaps[k])
    requires forall k | 0 <= k < |ts| :: GoodToken(ts[k])
    ensures IsLine(Spaced(ts, gaps))
    decreases |ts|
  {
    assert Blank(gaps[0]);
    assert '\0' !in gaps[0];
    if ts != [] {
      SpacedIsLine(ts[1..], gaps[1..]);
      assert GoodToken(ts[0]);
      assert '\0' !in Show(ts[0]);
    }
  }

  lemma {:induction false} WordEndIs(s: string, i: nat, j: nat)
    requires i <= j <= |s| && (forall k | i <= k < j :: WordChar(s[k])) && (j < |s| ==> !WordChar(s[j]))
    ensures WordEnd(s, i) == j
    decreases j - i
  {
    if i < j { WordEndIs(s, i + 1, j); }
  }

  // The next character does not belong to token t, which ends at e.
  predicate EndsAt(s: string, e: nat, t: Token<string>) {
    e < |s| ==> (t.Word? ==> !WordChar(s[e])) && (t == Sym('>') ==> s[e] != '>')
  }

  lemma TokenShown(s: string, a: nat, t: Token<string>)
    requires IsLine(s) && GoodToken(t) && a + |Show(t)| <= |s|
    requires s[a..a + |Show(t)|] == Show(t) && EndsAt(s, a + |Show(t)|, t)
    ensures |Show(t)| > 0 && !IsSpace(s[a])
    ensures TokenAt(s, a).1 == a + |Show(t)| && TokenText(s, TokenAt(s, a).0) == t
  {
    assert s[a] == Show(t)[0];
    match t
    case Sym(c) =>
    case Append => assert s[a + 1] == Show(t)[1];
    case Word(w) =>
      forall k | a <= k < a + |w| ensures WordChar(s[k]) { assert s[k] == w[k - a]; }
      WordEndIs(s, a, a + |w|);
  }

  lemma {:induction false} SkipsBlank(s: string, i: nat, a: nat)
    requires i <= a <= |s| && Blank(s[i..a]) && (a < |s| ==> !IsSpace(s[a]))
    ensures SkipSpace(s, i) == a
    decreases a - i
  {
    if i < a {
      assert s[i..a][0] == s[i] && s[i..a][1..] == s[i + 1..a];
      var g, h := s[i..a], s[i + 1..a];
      forall k | 0 <= k < |h| ensures h[k] == g[k + 1] { }
      SkipsBlank(s, i + 1, a);
    }
  }

  lemma TextsCons(s: string, u: Token<Span>, us: seq<Token<Span>>)
    ensures Texts(s, [u] + us) == [TokenText(s, u)] + Texts(s, us)
  {
  }

  // How what follows the first token begins.
  lemma SpacedNext(ts: seq<Token<string>>, gaps: seq<string>)
    requires ts != [] && GoodSpacing(ts, gaps) && forall k | 0 <= k < |ts| :: GoodToken(ts[k])
    ensures EndsAt(Show(ts[0]) + Spaced(ts[1..], gaps[1..]), |Show(ts[0])|, ts[0])
  {
    var n, r := |Show(ts[0])|, Spaced(ts[1..], gaps[1..]);
    var s := Show(ts[0]) + r;
    if r != "" {
      assert s[n] == r[0] && Blank(gaps[1]);
      if gaps[1] != "" {
        assert r[0] == gaps[1][0];
      } else {
        assert |ts| > 1 && GoodToken(ts[1]) && !RunTogether(ts[0], ts[1]);
        assert ts[1..][0] == ts[1] && gaps[1..][0] == "";
        assert r[0] == Show(ts[1])[0];
      }
    }
  }

  lemma Placed(a: string, b: string, c: string, d: string)
    ensures a + (b + (c + d)) == (a + b) + (c + d) == (a + b + c) + d
    ensures var s := a + (b + (c + d)); var i, j := |a| + |b|, |a| + |b| + |c|;
      && |s| == j + |d| && s[|a|..i] == b && s[i..j] == c && s[j..] == d
  {
  }

  // The first of the tokens, and the rest after it.
  lemma LexShown(s: string, i: nat, a: nat, t: Token<string>)
    requires IsLine(s) && GoodToken(t) && i <= a && a + |Show(t)| <= |s| && Blank(s[i..a])
    requires s[a..a + |Show(t)|] == Show(t) && EndsAt(s, a + |Show(t)|, t)
    ensures Texts(s, Lex(s, i)) == [t] + Texts(s, Lex(s, a + |Show(t)|))
  {
    hide Texts, TokenText;
    TokenShown(s, a, t);
    SkipsBlank(s, i, a);
    var (u, b) := TokenAt(s, a);
    assert Lex(s, i) == [u] + Lex(s, b);
    TextsCons(s, u, Lex(s, b));
  }

  // The tokens of a line are those that it was made of, whatever the blanks:
  // they are needed only between words, and after '>' before '>'.
  lemma {:induction false} LexSpaced(pre: string, ts: seq<Token<string>>, gaps: seq<string>)
    requires GoodSpacing(ts, gaps) && forall k | 0 <= k < |ts| :: GoodToken(ts[k])
    requires IsLine(pre + Spaced(ts, gaps))
    ensures var s := pre + Spaced(ts, gaps); Texts(s, Lex(s, |pre|)) == ts
    decreases |ts|
  {
    hide Lex, Texts, TokenText, Show, EndsAt, Blank;
    var s := pre + Spaced(ts, gaps);
    if ts == [] {
      LexNothing(pre, gaps[0]);
    } else {
      var g, t, r := gaps[0], Show(ts[0]), Spaced(ts[1..], gaps[1..]);
      Placed(pre, g, t, r);
      SpacedNext(ts, gaps);
      EndsLater(pre + g, t + r, |t|, ts[0]);
      LexShown(s, |pre|, |pre| + |g|, ts[0]);
      LexSpaced(pre + g + t, ts[1..], gaps[1..]);
      assert ts == [ts[0]] + ts[1..];
    }
  }

  lemma EndsLater(a: string, b: string, e: nat, t: Token<string>)
    requires EndsAt(b, e, t)
    ensures EndsAt(a + b, |a| + e, t)
  {
  }

  lemma LexNothing(pre: string, g: string)
    requires Blank(g) && IsLine(pre + g)
    ensures Texts(pre + g, Lex(pre + g, |pre|)) == []
  {
    var s := pre + g;
    assert s[|pre|..|s|] == g;
    SkipsBlank(s, |pre|, |s|);
  }
}
