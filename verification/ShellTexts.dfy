// A command tree of pointers into the line, read as a tree of strings: the
// grammar does not look inside words.
module ShellTexts {
  import opened ShellSyntax
  import opened ShellLex

  function WordTexts(s: string, args: seq<Span>): (r: seq<string>)
    ensures |r| == |args| && forall k | 0 <= k < |args| :: r[k] == TextOf(s, args[k])
  {
    seq(|args|, k requires 0 <= k < |args| => TextOf(s, args[k]))
  }

  function CmdText(s: string, c: Cmd<Span>): Cmd<string> {
    match c
    case Exec(args) => Exec(WordTexts(s, args))
    case Redir(d, f, m) => Redir(CmdText(s, d), TextOf(s, f), m)
    case Pipe(l, r) => Pipe(CmdText(s, l), CmdText(s, r))
    case List(l, r) => List(CmdText(s, l), CmdText(s, r))
    case Back(d) => Back(CmdText(s, d))
  }

  function ResText(s: string, r: Res<Span>): Res<string> {
    match r
    case Ok(c, rest) => Ok(CmdText(s, c), Texts(s, rest))
    case Err => Err
  }

  lemma TextsFrom(s: string, ts: seq<Token<Span>>, k: nat)
    requires k <= |ts|
    ensures Texts(s, ts)[k..] == Texts(s, ts[k..])
  {
  }

  lemma {:induction false} RedirsText(s: string, c: Cmd<Span>, ts: seq<Token<Span>>)
    ensures ResText(s, Redirs(c, ts)) == Redirs(CmdText(s, c), Texts(s, ts))
    decreases |ts|
  {
    if |ts| >= 2 && IsRedir(ts[0]) && ts[1].Word? {
      RedirsText(s, Redir(c, ts[1].w, ModeOf(ts[0])), ts[2..]);
      TextsFrom(s, ts, 2);
    }
  }

  lemma {:induction false} AddArgText(s: string, c: Cmd<Span>, w: Span)
    ensures CmdText(s, AddArg(c, w)) == AddArg(CmdText(s, c), TextOf(s, w))
  {
    match c
    case Exec(args) => assert WordTexts(s, args + [w]) == WordTexts(s, args) + [TextOf(s, w)];
    case Redir(d, _, _) => AddArgText(s, d, w);
    case Pipe(_, _) =>
    case List(_, _) =>
    case Back(_) =>
  }

  lemma {:induction false} ArgsText(s: string, c: Cmd<Span>, argc: nat, ts: seq<Token<Span>>)
    ensures ResText(s, Args(c, argc, ts)) == Args(CmdText(s, c), argc, Texts(s, ts))
    decreases |ts|
  {
    hide Redirs, AddArg, CmdText;
    if ts != [] && ts[0].Word? && argc + 1 < MAXARGS {
      AddArgText(s, c, ts[0].w);
      RedirsText(s, AddArg(c, ts[0].w), ts[1..]);
      TextsFrom(s, ts, 1);
      var r := Redirs(AddArg(c, ts[0].w), ts[1..]);
      if r.Ok? { ArgsText(s, r.cmd, argc + 1, r.rest); }
    }
  }

  lemma {:induction false} BacksText(s: string, c: Cmd<Span>, ts: seq<Token<Span>>)
    ensures Backs(CmdText(s, c), Texts(s, ts)) == (CmdText(s, Backs(c, ts).0), Texts(s, Backs(c, ts).1))
    decreases |ts|
  {
    if StartsWith(ts, '&') {
      TextsFrom(s, ts, 1);
      BacksText(s, Back(c), ts[1..]);
    }
  }

  lemma {:induction false} LineText(s: string, ts: seq<Token<Span>>)
    ensures ResText(s, Line(ts)) == Line(Texts(s, ts))
    decreases |ts|, 3
  {
    PipelineText(s, ts);
    var p := Pipeline(ts);
    if p.Ok? {
      BacksText(s, p.cmd, p.rest);
      var rest := Backs(p.cmd, p.rest).1;
      if StartsWith(rest, ';') {
        TextsFrom(s, rest, 1);
        LineText(s, rest[1..]);
      }
    }
  }

  lemma {:induction false} PipelineText(s: string, ts: seq<Token<Span>>)
    ensures ResText(s, Pipeline(ts)) == Pipeline(Texts(s, ts))
    decreases |ts|, 2
  {
    SimpleText(s, ts);
    var p := Simple(ts);
    if p.Ok? && StartsWith(p.rest, '|') {
      TextsFrom(s, p.rest, 1);
      PipelineText(s, p.rest[1..]);
    }
  }

  lemma {:induction false} SimpleText(s: string, ts: seq<Token<Span>>)
    ensures ResText(s, Simple(ts)) == Simple(Texts(s, ts))
    decreases |ts|, 1
  {
    if StartsWith(ts, '(') {
      BlockText(s, ts);
    } else {
      RedirsText(s, Exec([]), ts);
      assert WordTexts(s, []) == [];
      var r := Redirs(Exec([]), ts);
      if r.Ok? { ArgsText(s, r.cmd, 0, r.rest); }
    }
  }

  lemma {:induction false} BlockText(s: string, ts: seq<Token<Span>>)
    ensures ResText(s, Block(ts)) == Block(Texts(s, ts))
    decreases |ts|, 0
  {
    if !StartsWith(ts, '(') { return; }
    TextsFrom(s, ts, 1);
    LineText(s, ts[1..]);
    var p := Line(ts[1..]);
    if p.Ok? && StartsWith(p.rest, ')') {
      TextsFrom(s, p.rest, 1);
      RedirsText(s, p.cmd, p.rest[1..]);
    }
  }
}
