// The shell's command trees (sh.c), the grammar its parser accepts as a
// function of the token list, and a canonical print.
module ShellSyntax {

  const MAXARGS: nat := 10

  // '<' opens for reading as fd 0; '>' (and '>>') for writing as fd 1.
  datatype Mode = In | Out

  // A command tree; words are of type W.
  datatype Cmd<W> =
    | Exec(args: seq<W>)
    | Redir(cmd: Cmd<W>, file: W, mode: Mode)
    | Pipe(left: Cmd<W>, right: Cmd<W>)
    | List(left: Cmd<W>, right: Cmd<W>)
    | Back(cmd: Cmd<W>)

  datatype Token<W> = Sym(c: char) | Append | Word(w: W)

  // A command and the tokens after it, or the shell's panic.
  datatype Res<W> = Ok(cmd: Cmd<W>, rest: seq<Token<W>>) | Err

  // ---- The grammar ----

  predicate StartsWith<W(==)>(ts: seq<Token<W>>, c: char) {
    ts != [] && ts[0] == Sym(c)
  }

  predicate IsRedir<W>(t: Token<W>) {
    t.Append? || (t.Sym? && (t.c == '<' || t.c == '>'))
  }

  function ModeOf<W>(t: Token<W>): Mode {
    if t.Sym? && t.c == '<' then In else Out
  }

  // parseredirs(): wrap cmd in the redirections at the front of ts.
  function Redirs<W>(cmd: Cmd<W>, ts: seq<Token<W>>): (r: Res<W>)
    ensures r.Ok? ==> |r.rest| <= |ts|
    decreases |ts|
  {
    if ts == [] || !IsRedir(ts[0]) then Ok(cmd, ts)
    else if |ts| < 2 || !ts[1].Word? then Err
    else Redirs(Redir(cmd, ts[1].w, ModeOf(ts[0])), ts[2..])
  }

  // Add a word to the Exec node under the redirections.
  function AddArg<W>(cmd: Cmd<W>, w: W): Cmd<W> {
    match cmd
    case Exec(args) => Exec(args + [w])
    case Redir(c, f, m) => Redir(AddArg(c, w), f, m)
    case Pipe(_, _) => cmd
    case List(_, _) => cmd
    case Back(_) => cmd
  }

  predicate EndsArgs<W>(t: Token<W>) {
    t.Sym? && (t.c == '|' || t.c == ')' || t.c == '&' || t.c == ';')
  }

  // parseexec()'s loop, with argc words so far.
  function Args<W>(cmd: Cmd<W>, argc: nat, ts: seq<Token<W>>): (r: Res<W>)
    ensures r.Ok? ==> |r.rest| <= |ts|
    decreases |ts|
  {
    if ts == [] || EndsArgs(ts[0]) then Ok(cmd, ts)
    else if !ts[0].Word? then Err
    else if argc + 1 >= MAXARGS then Err
    else
      var r := Redirs(AddArg(cmd, ts[0].w), ts[1..]);
      if r.Err? then Err else Args(r.cmd, argc + 1, r.rest)
  }

  // parseline()'s loop over '&'.
  function Backs<W(==)>(cmd: Cmd<W>, ts: seq<Token<W>>): (r: (Cmd<W>, seq<Token<W>>))
    ensures |r.1| <= |ts|
    decreases |ts|
  {
    if StartsWith(ts, '&') then Backs(Back(cmd), ts[1..]) else (cmd, ts)
  }

  function Line<W(==)>(ts: seq<Token<W>>): (r: Res<W>)
    ensures r.Ok? ==> |r.rest| <= |ts|
    decreases |ts|, 3
  {
    var p := Pipeline(ts);
    if p.Err? then Err
    else
      var (cmd, rest) := Backs(p.cmd, p.rest);
      if !StartsWith(rest, ';') then Ok(cmd, rest)
      else
        var q := Line(rest[1..]);
        if q.Err? then Err else Ok(List(cmd, q.cmd), q.rest)
  }

  function Pipeline<W(==)>(ts: seq<Token<W>>): (r: Res<W>)
    ensures r.Ok? ==> |r.rest| <= |ts|
    decreases |ts|, 2
  {
    var p := Simple(ts);
    if p.Err? || !StartsWith(p.rest, '|') then p
    else
      var q := Pipeline(p.rest[1..]);
      if q.Err? then Err else Ok(Pipe(p.cmd, q.cmd), q.rest)
  }

  // parseexec()
  function Simple<W(==)>(ts: seq<Token<W>>): (r: Res<W>)
    ensures r.Ok? ==> |r.rest| <= |ts|
    decreases |ts|, 1
  {
    if StartsWith(ts, '(') then Block(ts)
    else
      var r := Redirs(Exec([]), ts);
      if r.Err? then Err else Args(r.cmd, 0, r.rest)
  }

  // parseblock()
  function Block<W(==)>(ts: seq<Token<W>>): (r: Res<W>)
    ensures r.Ok? ==> |r.rest| < |ts|
    decreases |ts|, 0
  {
    if !StartsWith(ts, '(') then Err else
    var p := Line(ts[1..]);
    if p.Err? || !StartsWith(p.rest, ')') then Err
    else Redirs(p.cmd, p.rest[1..])
  }

  // parsecmd(): nothing may be left over.
  function Whole<W(==)>(ts: seq<Token<W>>): Res<W> {
    var r := Line(ts);
    if r.Ok? && r.rest == [] then r else Err
  }

  // ---- A canonical print, and the round trip ----

  // Every subcommand in parentheses.
  function Print<W>(c: Cmd<W>): seq<Token<W>>
    decreases c, 1
  {
    [Sym('(')] + Inner(c) + [Sym(')')]
  }

  function Words<W>(args: seq<W>): (ts: seq<Token<W>>)
    ensures |ts| == |args| && forall i | 0 <= i < |ts| :: ts[i] == Word(args[i])
  {
    seq(|args|, i requires 0 <= i < |args| => Word(args[i]))
  }

  function ModeToken<W>(m: Mode): Token<W> {
    Sym(if m.In? then '<' else '>')
  }

  function Inner<W>(c: Cmd<W>): seq<Token<W>>
    decreases c, 0
  {
    match c
    case Exec(args) => Words(args)
    case Redir(d, f, m) => Print(d) + [ModeToken(m), Word(f)]
    case Pipe(l, r) => Print(l) + [Sym('|')] + Print(r)
    case List(l, r) => Print(l) + [Sym(';')] + Print(r)
    case Back(d) => Print(d) + [Sym('&')]
  }

  // No exec node has more words than argv[] takes.
  predicate Small<W>(c: Cmd<W>) {
    match c
    case Exec(args) => |args| < MAXARGS
    case Redir(d, _, _) => Small(d)
    case Pipe(l, r) => Small(l) && Small(r)
    case List(l, r) => Small(l) && Small(r)
    case Back(d) => Small(d)
  }

  lemma WordsTail<W>(more: seq<W>, rest: seq<Token<W>>)
    requires more != []
    ensures (Words(more) + rest)[0] == Word(more[0])
    ensures (Words(more) + rest)[1..] == Words(more[1..]) + rest
  {
  }

  lemma NoRedirs<W>(cmd: Cmd<W>, more: seq<W>, rest: seq<Token<W>>)
    requires StartsWith(rest, ')')
    ensures Redirs(cmd, Words(more) + rest) == Ok(cmd, Words(more) + rest)
  {
  }

  lemma {:induction false} ArgsOf<W>(done: seq<W>, more: seq<W>, rest: seq<Token<W>>)
    requires StartsWith(rest, ')') && |done| < MAXARGS
    ensures Args(Exec(done), |done|, Words(more) + rest) ==
              if |done| + |more| < MAXARGS then Ok(Exec(done + more), rest) else Err
    decreases |more|
  {
    hide Line, Simple, Redirs;
    var ts := Words(more) + rest;
    if more == [] {
      assert ts == rest && done + more == done;
    } else {
      WordsTail(more, rest);
      if |done| + 1 < MAXARGS {
        NoRedirs(Exec(done + [more[0]]), more[1..], rest);
        ArgsOf(done + [more[0]], more[1..], rest);
        assert done + [more[0]] + more[1..] == done + more;
      }
    }
  }

  // What comes after a printed command decides what its line is.
  lemma LineAfter<W>(ts: seq<Token<W>>, p: Res<W>)
    requires Simple(ts) == p
    ensures p.Err? ==> Line(ts) == Err
    ensures p.Ok? && (p.rest == [] || StartsWith(p.rest, ')')) ==> Line(ts) == p
    ensures p.Ok? && StartsWith(p.rest, '&') && StartsWith(p.rest[1..], ')') ==>
              Line(ts) == Ok(Back(p.cmd), p.rest[1..])
    ensures p.Ok? && StartsWith(p.rest, ';') ==>
              var q := Line(p.rest[1..]); Line(ts) == if q.Err? then Err else Ok(List(p.cmd, q.cmd), q.rest)
  {
    if p.Ok? && !StartsWith(p.rest, '|') {
      assert Pipeline(ts) == p;
      if StartsWith(p.rest, '&') && StartsWith(p.rest[1..], ')') {
        assert Backs(Back(p.cmd), p.rest[1..]) == (Back(p.cmd), p.rest[1..]);
      }
    }
  }

  lemma PipeAfter<W>(ts: seq<Token<W>>, us: seq<Token<W>>, p: Res<W>, q: Res<W>)
    requires Simple(ts) == p && p.Ok? && p.rest == [Sym('|')] + us && Simple(us) == q
    requires q.Ok? ==> StartsWith(q.rest, ')')
    ensures Line(ts) == if q.Ok? then Ok(Pipe(p.cmd, q.cmd), q.rest) else Err
  {
    assert p.rest[1..] == us;
    assert Pipeline(us) == q;
  }

  lemma {:induction false} LineOf<W>(c: Cmd<W>, rest: seq<Token<W>>)
    requires StartsWith(rest, ')')
    ensures Line(Inner(c) + rest) == if Small(c) then Ok(c, rest) else Err
    decreases c, 1
  {
    match c
    case Exec(args) => ExecOf(args, rest);
    case Redir(d, f, m) => RedirOf(d, f, m, rest);
    case Pipe(l, r) => PipeOf(l, r, rest);
    case List(l, r) => ListOf(l, r, rest);
    case Back(d) => BackOf(d, rest);
  }

  lemma ExecOf<W>(args: seq<W>, rest: seq<Token<W>>)
    requires StartsWith(rest, ')')
    ensures Line(Words(args) + rest) == if |args| < MAXARGS then Ok(Exec(args), rest) else Err
  {
    hide Line, Args;
    var ts := Words(args) + rest;
    ArgsOf([], args, rest);
    assert [] + args == args;
    assert Simple(ts) == Args(Exec([]), 0, ts);
    LineAfter(ts, Simple(ts));
  }

  lemma {:induction false} RedirOf<W>(d: Cmd<W>, f: W, m: Mode, rest: seq<Token<W>>)
    requires StartsWith(rest, ')')
    ensures Line(Inner(Redir(d, f, m)) + rest) == if Small(d) then Ok(Redir(d, f, m), rest) else Err
    decreases Redir(d, f, m), 0
  {
    hide Line, Args;
    var us := [ModeToken(m), Word(f)] + rest;
    var ts := Print(d) + us;
    BlockOf(d, us);
    assert us[2..] == rest && us[0] == ModeToken(m) && us[1] == Word(f);
    LineAfter(ts, Simple(ts));
    assert Inner(Redir(d, f, m)) + rest == ts;
  }

  lemma Regrouped<T>(a: seq<T>, x: T, b: seq<T>, c: seq<T>)
    ensures a + [x] + b + c == a + ([x] + (b + c))
    ensures ([x] + (b + c))[1..] == b + c
  {
  }

  lemma {:induction false} PipeOf<W>(l: Cmd<W>, r: Cmd<W>, rest: seq<Token<W>>)
    requires StartsWith(rest, ')')
    ensures Line(Inner(Pipe(l, r)) + rest) == if Small(l) && Small(r) then Ok(Pipe(l, r), rest) else Err
    decreases Pipe(l, r), 0
  {
    hide Line, Args, Simple, Print;
    var us := Print(r) + rest;
    var ts := Print(l) + ([Sym('|')] + us);
    Regrouped(Print(l), Sym('|'), Print(r), rest);
    BlockOf(l, [Sym('|')] + us);
    BlockOf(r, rest);
    LineAfter(ts, Simple(ts));
    if Small(l) { PipeAfter(ts, us, Simple(ts), Simple(us)); }
  }

  lemma {:induction false} ListOf<W>(l: Cmd<W>, r: Cmd<W>, rest: seq<Token<W>>)
    requires StartsWith(rest, ')')
    ensures Line(Inner(List(l, r)) + rest) == if Small(l) && Small(r) then Ok(List(l, r), rest) else Err
    decreases List(l, r), 0
  {
    hide Line, Args, Simple, Print;
    var us := Print(r) + rest;
    var ts := Print(l) + ([Sym(';')] + us);
    Regrouped(Print(l), Sym(';'), Print(r), rest);
    BlockOf(l, [Sym(';')] + us);
    BlockOf(r, rest);
    LineAfter(ts, Simple(ts));
    LineAfter(us, Simple(us));
  }

  lemma {:induction false} BackOf<W>(d: Cmd<W>, rest: seq<Token<W>>)
    requires StartsWith(rest, ')')
    ensures Line(Inner(Back(d)) + rest) == if Small(d) then Ok(Back(d), rest) else Err
    decreases Back(d), 0
  {
    hide Line, Args;
    var ts := Print(d) + ([Sym('&')] + rest);
    BlockOf(d, [Sym('&')] + rest);
    assert ([Sym('&')] + rest)[1..] == rest;
    LineAfter(ts, Simple(ts));
    assert Inner(Back(d)) + rest == ts;
  }

  lemma {:induction false} BlockOf<W>(c: Cmd<W>, rest: seq<Token<W>>)
    ensures Simple(Print(c) + rest) == if Small(c) then Redirs(c, rest) else Err
    decreases c, 2
  {
    var ts := Print(c) + rest;
    LineOf(c, [Sym(')')] + rest);
    assert ts[1..] == Inner(c) + ([Sym(')')] + rest);
    assert ([Sym(')')] + rest)[1..] == rest;
  }

  // Parsing the print of a tree gives the tree, exactly when its exec nodes
  // are small enough.
  lemma RoundTrip<W>(c: Cmd<W>)
    ensures Whole(Print(c)) == if Small(c) then Ok(c, []) else Err
  {
    BlockOf(c, []);
    assert Print(c) + [] == Print(c);
    LineAfter(Print(c), Simple(Print(c)));
  }
}
