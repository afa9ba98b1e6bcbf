// parsecmd (sh.c) as a whole: the words of the tree are words of the line,
// nulterminate makes them C strings, and a printed tree parses back.
module Shell {
  import opened Options
  import opened ShellSyntax
  import opened ShellPlain
  import opened ShellLex
  import opened ShellTexts
  import opened ShellParser

  // ---- The tree's words are words of the line ----

  // All words of c are maximal runs of word characters in s.
  predicate WordsOk(s: string, c: Cmd<Span>) {
    match c
    case Exec(args) => forall k | 0 <= k < |args| :: WordSpan(s, args[k])
    case Redir(d, f, _) => WordsOk(s, d) && WordSpan(s, f)
    case Pipe(l, r) => WordsOk(s, l) && WordsOk(s, r)
    case List(l, r) => WordsOk(s, l) && WordsOk(s, r)
    case Back(d) => WordsOk(s, d)
  }

  predicate ResOk(s: string, r: Res<Span>) {
    r.Ok? ==> WordsOk(s, r.cmd) && SpansOk(s, r.rest)
  }

  lemma SpansFrom(s: string, ts: seq<Token<Span>>, k: nat)
    requires SpansOk(s, ts) && k <= |ts|
    ensures SpansOk(s, ts[k..])
  {
  }

  lemma {:induction false} RedirsOk(s: string, c: Cmd<Span>, ts: seq<Token<Span>>)
    requires WordsOk(s, c) && SpansOk(s, ts)
    ensures ResOk(s, Redirs(c, ts))
    decreases |ts|
  {
    if |ts| >= 2 && IsRedir(ts[0]) && ts[1].Word? {
      RedirsOk(s, Redir(c, ts[1].w, ModeOf(ts[0])), ts[2..]);
    }
  }

  lemma {:induction false} AddArgOk(s: string, c: Cmd<Span>, w: Span)
    requires WordsOk(s, c) && WordSpan(s, w)
    ensures WordsOk(s, AddArg(c, w))
  {
    match c
    case Exec(_) =>
    case Redir(d, _, _) => AddArgOk(s, d, w);
    case Pipe(_, _) =>
    case List(_, _) =>
    case Back(_) =>
  }

  lemma {:induction false} ArgsOk(s: string, c: Cmd<Span>, argc: nat, ts: seq<Token<Span>>)
    requires WordsOk(s, c) && SpansOk(s, ts)
    ensures ResOk(s, Args(c, argc, ts))
    decreases |ts|
  {
    if ts != [] && ts[0].Word? && argc + 1 < MAXARGS {
      AddArgOk(s, c, ts[0].w);
      RedirsOk(s, AddArg(c, ts[0].w), ts[1..]);
      var r := Redirs(AddArg(c, ts[0].w), ts[1..]);
      if r.Ok? { ArgsOk(s, r.cmd, argc + 1, r.rest); }
    }
  }

  lemma {:induction false} BacksOk(s: string, c: Cmd<Span>, ts: seq<Token<Span>>)
    requires WordsOk(s, c) && SpansOk(s, ts)
    ensures WordsOk(s, Backs(c, ts).0) && SpansOk(s, Backs(c, ts).1)
    decreases |ts|
  {
    if StartsWith(ts, '&') { BacksOk(s, Back(c), ts[1..]); }
  }

  lemma {:induction false} LineOk(s: string, ts: seq<Token<Span>>)
    requires SpansOk(s, ts)
    ensures ResOk(s, Line(ts))
    decreases |ts|, 3
  {
    hide SpansOk;
    PipelineOk(s, ts);
    var p := Pipeline(ts);
    if p.Ok? {
      BacksOk(s, p.cmd, p.rest);
      var rest := Backs(p.cmd, p.rest).1;
      if StartsWith(rest, ';') {
        SpansFrom(s, rest, 1);
        LineOk(s, rest[1..]);
      }
    }
  }

  lemma {:induction false} PipelineOk(s: string, ts: seq<Token<Span>>)
    requires SpansOk(s, ts)
    ensures ResOk(s, Pipeline(ts))
    decreases |ts|, 2
  {
    hide SpansOk;
    SimpleOk(s, ts);
    var p := Simple(ts);
    if p.Ok? && StartsWith(p.rest, '|') {
      SpansFrom(s, p.rest, 1);
      PipelineOk(s, p.rest[1..]);
    }
  }

  lemma {:induction false} SimpleOk(s: string, ts: seq<Token<Span>>)
    requires SpansOk(s, ts)
    ensures ResOk(s, Simple(ts))
    decreases |ts|, 1
  {
    hide SpansOk;
    if StartsWith(ts, '(') {
      SpansFrom(s, ts, 1);
      LineOk(s, ts[1..]);
      var p := Line(ts[1..]);
      if p.Ok? && StartsWith(p.rest, ')') {
        SpansFrom(s, p.rest, 1);
        RedirsOk(s, p.cmd, p.rest[1..]);
      }
    } else {
      RedirsOk(s, Exec([]), ts);
      var r := Redirs(Exec([]), ts);
      if r.Ok? { ArgsOk(s, r.cmd, 0, r.rest); }
    }
  }

  // ---- nulterminate ----

  // Where the words of c end.
  function Ends(c: Cmd<Span>): set<nat> {
    match c
    case Exec(args) => set w | w in args :: w.j
    case Redir(d, f, _) => Ends(d) + {f.j}
    case Pipe(l, r) => Ends(l) + Ends(r)
    case List(l, r) => Ends(l) + Ends(r)
    case Back(d) => Ends(d)
  }

  predicate HasWord(c: Cmd<Span>, w: Span) {
    match c
    case Exec(args) => w in args
    case Redir(d, f, _) => HasWord(d, w) || w == f
    case Pipe(l, r) => HasWord(l, w) || HasWord(r, w)
    case List(l, r) => HasWord(l, w) || HasWord(r, w)
    case Back(d) => HasWord(d, w)
  }

  lemma {:induction false} WordIsSpan(s: string, c: Cmd<Span>, w: Span)
    requires WordsOk(s, c) && HasWord(c, w)
    ensures WordSpan(s, w) && w.j in Ends(c)
  {
    match c
    case Exec(args) =>
    case Redir(d, f, _) => if w != f { WordIsSpan(s, d, w); }
    case Pipe(l, r) => if HasWord(l, w) { WordIsSpan(s, l, w); } else { WordIsSpan(s, r, w); }
    case List(l, r) => if HasWord(l, w) { WordIsSpan(s, l, w); } else { WordIsSpan(s, r, w); }
    case Back(d) => WordIsSpan(s, d, w);
  }

  // No word ends inside the line's words.
  lemma {:induction false} EndsOutside(s: string, c: Cmd<Span>, e: nat)
    requires WordsOk(s, c) && e in Ends(c)
    ensures e <= |s| && (e < |s| ==> !WordChar(s[e]))
  {
    match c
    case Exec(args) =>
      var w :| w in args && w.j == e;
      assert WordSpan(s, w);
    case Redir(d, f, _) => if e != f.j { EndsOutside(s, d, e); }
    case Pipe(l, r) => if e in Ends(l) { EndsOutside(s, l, e); } else { EndsOutside(s, r, e); }
    case List(l, r) => if e in Ends(l) { EndsOutside(s, l, e); } else { EndsOutside(s, r, e); }
    case Back(d) => EndsOutside(s, d, e);
  }

  predicate EndsIn(c: Cmd<Span>, n: nat) {
    forall e | e in Ends(c) :: e < n
  }

  // b with NULs at the places in es.
  ghost predicate Terminated(b: seq<char>, was: seq<char>, es: set<nat>) {
    |b| == |was| && forall k | 0 <= k < |b| :: b[k] == if k in es then '\0' else was[k]
  }

  method Nulterminate(buf: array<char>, cmd: Cmd<Span>)
    requires EndsIn(cmd, buf.Length)
    modifies buf
    ensures Terminated(buf[..], old(buf[..]), Ends(cmd))
    decreases cmd
  {
    match cmd
    case Exec(args) =>
      var i := 0;
      while i < |args|
        invariant 0 <= i <= |args|
        invariant Terminated(buf[..], old(buf[..]), set w | w in args[..i] :: w.j)
      {
        assert args[i] in args && args[i].j in Ends(cmd);
        assert args[..i + 1] == args[..i] + [args[i]];
        buf[args[i].j] := '\0';
        i := i + 1;
      }
      assert args[..i] == args;
    case Redir(d, f, _) =>
      assert f.j in Ends(cmd);
      Nulterminate(buf, d);
      buf[f.j] := '\0';
    case Pipe(l, r) =>
      assert Ends(l) <= Ends(cmd) && Ends(r) <= Ends(cmd);
      Nulterminate(buf, l);
      Nulterminate(buf, r);
    case List(l, r) =>
      assert Ends(l) <= Ends(cmd) && Ends(r) <= Ends(cmd);
      Nulterminate(buf, l);
      Nulterminate(buf, r);
    case Back(d) =>
      assert Ends(d) <= Ends(cmd);
      Nulterminate(buf, d);
  }

  // The C string at b + i.
  function CString(b: seq<char>, i: nat): string
    decreases |b| - i
  {
    if i >= |b| || b[i] == '\0' then "" else [b[i]] + CString(b, i + 1)
  }

  lemma {:induction false} CStringIs(b: seq<char>, i: nat, j: nat)
    requires i <= j < |b| && b[j] == '\0' && forall k | i <= k < j :: b[k] != '\0'
    ensures CString(b, i) == b[i..j]
    decreases j - i
  {
    if i < j {
      CStringIs(b, i + 1, j);
      assert b[i..j] == [b[i]] + b[i + 1..j];
    }
  }

  // After nulterminate() every word of the tree, as a C string, is what the
  // line had there.
  lemma WordsAreCStrings(s: string, c: Cmd<Span>, b: seq<char>, w: Span)
    requires IsLine(s) && WordsOk(s, c) && Terminated(b, s + ['\0'], Ends(c)) && HasWord(c, w)
    ensures CString(b, w.i) == TextOf(s, w)
  {
    WordIsSpan(s, c, w);
    forall k | w.i <= k < w.j ensures b[k] == s[k] && s[k] != '\0' {
      if k in Ends(c) { EndsOutside(s, c, k); }
      assert WordChar(s[k]);
    }
    CStringIs(b, w.i, w.j);
  }

  // The tree, with its words read from b as C strings.
  function ReadBack(b: seq<char>, c: Cmd<Span>): Cmd<string> {
    match c
    case Exec(args) => Exec(seq(|args|, k requires 0 <= k < |args| => CString(b, args[k].i)))
    case Redir(d, f, m) => Redir(ReadBack(b, d), CString(b, f.i), m)
    case Pipe(l, r) => Pipe(ReadBack(b, l), ReadBack(b, r))
    case List(l, r) => List(ReadBack(b, l), ReadBack(b, r))
    case Back(d) => Back(ReadBack(b, d))
  }

  lemma {:induction false} ReadBackIs(s: string, c: Cmd<Span>, b: seq<char>)
    requires forall w | HasWord(c, w) :: CString(b, w.i) == TextOf(s, w)
    ensures ReadBack(b, c) == CmdText(s, c)
  {
    match c
    case Exec(args) =>
      forall k | 0 <= k < |args| ensures CString(b, args[k].i) == TextOf(s, args[k]) { assert HasWord(c, args[k]); }
      assert ReadBack(b, c).args == WordTexts(s, args);
    case Redir(d, f, _) =>
      assert HasWord(c, f);
      forall w | HasWord(d, w) ensures CString(b, w.i) == TextOf(s, w) { assert HasWord(c, w); }
      ReadBackIs(s, d, b);
    case Pipe(l, r) =>
      forall w | HasWord(l, w) || HasWord(r, w) ensures CString(b, w.i) == TextOf(s, w) { assert HasWord(c, w); }
      ReadBackIs(s, l, b);
      ReadBackIs(s, r, b);
    case List(l, r) =>
      forall w | HasWord(l, w) || HasWord(r, w) ensures CString(b, w.i) == TextOf(s, w) { assert HasWord(c, w); }
      ReadBackIs(s, l, b);
      ReadBackIs(s, r, b);
    case Back(d) =>
      forall w | HasWord(d, w) ensures CString(b, w.i) == TextOf(s, w) { assert HasWord(c, w); }
      ReadBackIs(s, d, b);
  }

  // ---- parsecmd ----

  // The line is in buf, with its NUL.
  method Parsecmd(buf: array<char>) returns (r: Option<Cmd<Span>>)
    requires buf.Length > 0 && buf[buf.Length - 1] == '\0' && IsLine(buf[..buf.Length - 1])
    modifies buf
    ensures var s := old(buf[..buf.Length - 1]); var res := Whole(Lex(s, 0));
      && (res.Err? <==> r.None?)
      && (res.Ok? ==>
            && r == Some(res.cmd)
            && (forall w | HasWord(r.value, w) :: CString(buf[..], w.i) == TextOf(s, w))
            && ReadBack(buf[..], r.value) == CmdText(s, r.value))
  {
    var s := buf[..buf.Length - 1];
    var p;
    r, p := Parseline(s, 0);
    if r.None? { return; }
    var more;
    more, p := Peek(s, p, {});
    PeekedAll(s, p);
    if p != |s| { return None; }
    LexSpans(s, 0);
    LineOk(s, Lex(s, 0));
    var c := r.value;
    forall e | e in Ends(c) ensures e < buf.Length { EndsOutside(s, c, e); }
    assert buf[..] == s + ['\0'];
    Nulterminate(buf, c);
    forall w | HasWord(c, w) ensures CString(buf[..], w.i) == TextOf(s, w) {
      WordsAreCStrings(s, c, buf[..], w);
    }
    ReadBackIs(s, c, buf[..]);
  }

  lemma PeekedAll(s: string, p: nat)
    requires IsLine(s) && p <= |s|
    ensures p == |s| ==> Lex(s, p) == []
  {
  }

  // ---- The round trip on text ----

  // The words of c are what a token can be.
  predicate GoodWords(c: Cmd<string>) {
    match c
    case Exec(args) => forall k | 0 <= k < |args| :: GoodToken(Word(args[k]))
    case Redir(d, f, _) => GoodWords(d) && GoodToken(Word(f))
    case Pipe(l, r) => GoodWords(l) && GoodWords(r)
    case List(l, r) => GoodWords(l) && GoodWords(r)
    case Back(d) => GoodWords(d)
  }

  lemma {:induction false} PrintedTokens(c: Cmd<string>, k: nat)
    requires GoodWords(c) && k < |Print(c)|
    ensures GoodToken(Print(c)[k])
  {
    if 0 < k < |Print(c)| - 1 {
      var i := k - 1;
      assert Print(c)[k] == Inner(c)[i];
      match c
      case Exec(args) => assert GoodToken(Word(args[i]));
      case Redir(d, _, _) => if i < |Print(d)| { PrintedTokens(d, i); }
      case Pipe(l, r) =>
        if i < |Print(l)| { PrintedTokens(l, i); } else if i > |Print(l)| { PrintedTokens(r, i - |Print(l)| - 1); }
      case List(l, r) =>
        if i < |Print(l)| { PrintedTokens(l, i); } else if i > |Print(l)| { PrintedTokens(r, i - |Print(l)| - 1); }
      case Back(d) => if i < |Print(d)| { PrintedTokens(d, i); }
    }
  }

  // Parsing the printed text of a tree, however spaced, gives pointers to its
  // words, in the same tree, exactly when every exec node has at most nine
  // words.
  lemma TextRoundTrip(c: Cmd<string>, gaps: seq<string>)
    requires GoodWords(c) && GoodSpacing(Print(c), gaps)
    ensures var s := Spaced(Print(c), gaps);
      && IsLine(s)
      && ResText(s, Whole(Lex(s, 0))) == if Small(c) then Ok(c, []) else Err
  {
    forall k | 0 <= k < |Print(c)| ensures GoodToken(Print(c)[k]) { PrintedTokens(c, k); }
    TextParses(Print(c), gaps);
    RoundTrip(c);
  }

  // The tree of a text is the tree of its tokens.
  lemma TextParses(ts: seq<Token<string>>, gaps: seq<string>)
    requires GoodSpacing(ts, gaps) && forall k | 0 <= k < |ts| :: GoodToken(ts[k])
    ensures var s := Spaced(ts, gaps); IsLine(s) && ResText(s, Whole(Lex(s, 0))) == Whole(ts)
  {
    hide Lex, Line;
    var s := Spaced(ts, gaps);
    SpacedIsLine(ts, gaps);
    assert "" + s == s;
    LexSpaced("", ts, gaps);
    LineText(s, Lex(s, 0));
  }

  lemma {:induction false} ShownTokens(c: Cmd<string>, level: nat, k: nat)
    requires GoodWords(c) && level <= 3 && k < |Shown(c, level)|
    ensures GoodToken(Shown(c, level)[k])
    decreases c, if Level(c) > level then 1 else 0
  {
    if Level(c) > level {
      if 0 < k < |Shown(c, level)| - 1 { ShownTokens(c, 3, k - 1); }
    } else {
      match c
      case Exec(args) => assert GoodToken(Word(args[k]));
      case Redir(d, _, _) => if k < |Shown(d, 0)| { ShownTokens(d, 0, k); }
      case Pipe(l, r) =>
        var n := |Shown(l, 0)|;
        if k < n { ShownTokens(l, 0, k); } else if k > n { ShownTokens(r, 1, k - n - 1); }
      case List(l, r) =>
        var n := |Shown(l, 2)|;
        if k < n { ShownTokens(l, 2, k); } else if k > n { ShownTokens(r, 3, k - n - 1); }
      case Back(d) => if k < |Shown(d, 2)| { ShownTokens(d, 2, k); }
    }
  }

  // The same for the print with parentheses only where they are needed.
  lemma ShownTextRoundTrip(c: Cmd<string>, gaps: seq<string>)
    requires GoodWords(c) && GoodSpacing(Shown(c, 3), gaps)
    ensures var s := Spaced(Shown(c, 3), gaps);
      && IsLine(s)
      && ResText(s, Whole(Lex(s, 0))) == if Small(c) then Ok(c, []) else Err
  {
    forall k | 0 <= k < |Shown(c, 3)| ensures GoodToken(Shown(c, 3)[k]) { ShownTokens(c, 3, k); }
    TextParses(Shown(c, 3), gaps);
    ShownRoundTrip(c);
  }
}
