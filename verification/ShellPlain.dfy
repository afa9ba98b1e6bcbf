// The shell's grammar (sh.c) on plain command lines: what a simple command
// means, word by word, and a print with parentheses only where they are
// needed.
module ShellPlain {
  import opened ShellSyntax

  // ---- Simple commands ----

  predicate Ending<W>(t: Token<W>) {
    t.Sym? && (t.c == '|' || t.c == ')' || t.c == '&' || t.c == ';')
  }

  predicate Redirecting<W>(t: Token<W>) {
    t.Append? || (t.Sym? && (t.c == '<' || t.c == '>'))
  }

  // The tokens before the first '|', ')', '&' or ';'.
  function BodyLength<W>(ts: seq<Token<W>>): (n: nat)
    ensures n <= |ts| && (forall k | 0 <= k < n :: !Ending(ts[k])) && (n < |ts| ==> Ending(ts[n]))
  {
    if ts == [] || Ending(ts[0]) then 0 else 1 + BodyLength(ts[1..])
  }

  // Words, and redirections that have a file.
  predicate WellFormed<W>(ts: seq<Token<W>>) {
    if ts == [] then true
    else if Redirecting(ts[0]) then |ts| >= 2 && ts[1].Word? && WellFormed(ts[2..])
    else ts[0].Word? && WellFormed(ts[1..])
  }

  // The words that are not files of redirections, in order.
  function PlainWords<W>(ts: seq<Token<W>>): seq<W>
    requires WellFormed(ts)
  {
    if ts == [] then []
    else if Redirecting(ts[0]) then PlainWords(ts[2..])
    else [ts[0].w] + PlainWords(ts[1..])
  }

  // The redirections, in order.
  function Files<W>(ts: seq<Token<W>>): seq<(W, Mode)>
    requires WellFormed(ts)
  {
    if ts == [] then []
    else if Redirecting(ts[0]) then [(ts[1].w, if ts[0].Sym? && ts[0].c == '<' then In else Out)] + Files(ts[2..])
    else Files(ts[1..])
  }

  // The redirections rs around c, the last outermost.
  function Wrapped<W>(c: Cmd<W>, rs: seq<(W, Mode)>): Cmd<W> {
    if rs == [] then c else Redir(Wrapped(c, rs[..|rs| - 1]), rs[|rs| - 1].0, rs[|rs| - 1].1)
  }

  lemma {:induction false} AddArgWrapped<W>(ws: seq<W>, rs: seq<(W, Mode)>, w: W)
    ensures AddArg(Wrapped(Exec(ws), rs), w) == Wrapped(Exec(ws + [w]), rs)
  {
    if rs != [] { AddArgWrapped(ws, rs[..|rs| - 1], w); }
  }

  // parseexec() when it has the words ws and redirections rs.
  function Going<W>(ws: seq<W>, rs: seq<(W, Mode)>, ts: seq<Token<W>>): Res<W> {
    var r := Redirs(Wrapped(Exec(ws), rs), ts);
    if r.Err? then Err else Args(r.cmd, |ws|, r.rest)
  }

  lemma WrapOne<W>(c: Cmd<W>, rs: seq<(W, Mode)>, f: W, m: Mode)
    ensures Wrapped(c, rs + [(f, m)]) == Redir(Wrapped(c, rs), f, m)
  {
    assert (rs + [(f, m)])[..|rs|] == rs;
  }

  lemma GoingStep<W>(ws: seq<W>, rs: seq<(W, Mode)>, ts: seq<Token<W>>)
    requires ts != []
    ensures Redirecting(ts[0]) ==>
              Going(ws, rs, ts) ==
                if |ts| < 2 || !ts[1].Word? then Err
                else Going(ws, rs + [(ts[1].w, if ts[0].Sym? && ts[0].c == '<' then In else Out)], ts[2..])
    ensures ts[0].Word? ==>
              Going(ws, rs, ts) == if |ws| + 1 >= MAXARGS then Err else Going(ws + [ts[0].w], rs, ts[1..])
    ensures Ending(ts[0]) ==> Going(ws, rs, ts) == Ok(Wrapped(Exec(ws), rs), ts)
    ensures !Redirecting(ts[0]) && !ts[0].Word? && !Ending(ts[0]) ==> Going(ws, rs, ts) == Err
  {
    if Redirecting(ts[0]) {
      if |ts| >= 2 && ts[1].Word? {
        WrapOne(Exec(ws), rs, ts[1].w, if ts[0].Sym? && ts[0].c == '<' then In else Out);
      }
    } else if ts[0].Word? {
      AddArgWrapped(ws, rs, ts[0].w);
    }
  }

  // The tree that body makes after ws and rs.
  function Built<W>(ws: seq<W>, rs: seq<(W, Mode)>, ts: seq<Token<W>>): Res<W> {
    var n := BodyLength(ts);
    if WellFormed(ts[..n]) && |ws| + |PlainWords(ts[..n])| < MAXARGS
    then Ok(Wrapped(Exec(ws + PlainWords(ts[..n])), rs + Files(ts[..n])), ts[n..])
    else Err
  }

  lemma {:induction false} GoingIsBuilt<W>(ws: seq<W>, rs: seq<(W, Mode)>, ts: seq<Token<W>>)
    requires |ws| < MAXARGS
    ensures Going(ws, rs, ts) == Built(ws, rs, ts)
    decreases |ts|
  {
    hide Going;
    if ts == [] {
      GoingNothing(ws, rs);
    } else {
      GoingStep(ws, rs, ts);
      BuiltStep(ws, rs, ts);
      if Redirecting(ts[0]) && |ts| >= 2 && ts[1].Word? {
        GoingIsBuilt(ws, rs + [(ts[1].w, if ts[0].Sym? && ts[0].c == '<' then In else Out)], ts[2..]);
      } else if ts[0].Word? && |ws| + 1 < MAXARGS {
        GoingIsBuilt(ws + [ts[0].w], rs, ts[1..]);
      }
    }
  }

  lemma GoingNothing<W>(ws: seq<W>, rs: seq<(W, Mode)>)
    requires |ws| < MAXARGS
    ensures Going(ws, rs, []) == Built(ws, rs, [])
  {
    assert ws + [] == ws && rs + [] == rs;
  }

  lemma BuiltStep<W>(ws: seq<W>, rs: seq<(W, Mode)>, ts: seq<Token<W>>)
    requires ts != [] && |ws| < MAXARGS
    ensures Redirecting(ts[0]) ==>
              Built(ws, rs, ts) ==
                if |ts| < 2 || !ts[1].Word? then Err
                else Built(ws, rs + [(ts[1].w, if ts[0].Sym? && ts[0].c == '<' then In else Out)], ts[2..])
    ensures ts[0].Word? ==>
              Built(ws, rs, ts) == if |ws| + 1 >= MAXARGS then Err else Built(ws + [ts[0].w], rs, ts[1..])
    ensures Ending(ts[0]) ==> Built(ws, rs, ts) == Ok(Wrapped(Exec(ws), rs), ts)
    ensures !Redirecting(ts[0]) && !ts[0].Word? && !Ending(ts[0]) ==> Built(ws, rs, ts) == Err
  {
    hide Built;
    if Ending(ts[0]) {
      BuiltEnds(ws, rs, ts);
    } else if Redirecting(ts[0]) {
      BuiltRedirects(ws, rs, ts);
    } else if ts[0].Word? {
      BuiltAdds(ws, rs, ts);
    } else {
      BuiltEnds(ws, rs, ts);
    }
  }

  lemma BuiltEnds<W>(ws: seq<W>, rs: seq<(W, Mode)>, ts: seq<Token<W>>)
    requires ts != [] && |ws| < MAXARGS && !Redirecting(ts[0]) && !ts[0].Word?
    ensures Built(ws, rs, ts) == if Ending(ts[0]) then Ok(Wrapped(Exec(ws), rs), ts) else Err
  {
    assert ws + [] == ws && rs + [] == rs;
  }

  lemma BuiltRedirects<W>(ws: seq<W>, rs: seq<(W, Mode)>, ts: seq<Token<W>>)
    requires ts != [] && Redirecting(ts[0])
    ensures Built(ws, rs, ts) ==
              if |ts| < 2 || !ts[1].Word? then Err
              else Built(ws, rs + [(ts[1].w, if ts[0].Sym? && ts[0].c == '<' then In else Out)], ts[2..])
  {
    hide Wrapped;
    var n := BodyLength(ts);
    var body := ts[..n];
    if |ts| >= 2 && ts[1].Word? {
      assert n == 2 + BodyLength(ts[2..]);
      assert body[2..] == ts[2..][..n - 2] && ts[n..] == ts[2..][n - 2..];
      if WellFormed(body) {
        var x := (ts[1].w, if ts[0].Sym? && ts[0].c == '<' then In else Out);
        assert rs + [x] + Files(body[2..]) == rs + ([x] + Files(body[2..]));
      }
    }
  }

  lemma BuiltAdds<W>(ws: seq<W>, rs: seq<(W, Mode)>, ts: seq<Token<W>>)
    requires ts != [] && |ws| < MAXARGS && ts[0].Word?
    ensures Built(ws, rs, ts) == if |ws| + 1 >= MAXARGS then Err else Built(ws + [ts[0].w], rs, ts[1..])
  {
    hide Wrapped;
    var n := BodyLength(ts);
    var body := ts[..n];
    assert n == 1 + BodyLength(ts[1..]);
    assert body[1..] == ts[1..][..n - 1] && ts[n..] == ts[1..][n - 1..];
    if WellFormed(body) {
      assert ws + [ts[0].w] + PlainWords(body[1..]) == ws + ([ts[0].w] + PlainWords(body[1..]));
    }
  }

  // parseexec() off a '(': the command runs to the next '|', ')', '&' or ';';
  // its arguments are all words before it that are not files, in order, and
  // its redirections the files, the last outermost.  It panics exactly if a
  // file is missing, another symbol is there, or there are ten words or more.
  lemma SimpleIs<W>(ts: seq<Token<W>>)
    requires ts == [] || ts[0] != Sym('(')
    ensures var n := BodyLength(ts); var body := ts[..n];
      Simple(ts) == if WellFormed(body) && |PlainWords(body)| < 10
                    then Ok(Wrapped(Exec(PlainWords(body)), Files(body)), ts[n..]) else Err
  {
    GoingIsBuilt([], [], ts);
    var n := BodyLength(ts);
    if WellFormed(ts[..n]) {
      assert [] + PlainWords(ts[..n]) == PlainWords(ts[..n]) && [] + Files(ts[..n]) == Files(ts[..n]);
    }
  }

  predicate Ends<W>(rest: seq<Token<W>>) {
    rest == [] || Ending(rest[0])
  }

  lemma GoingEnds<W>(ws: seq<W>, rs: seq<(W, Mode)>, rest: seq<Token<W>>)
    requires Ends(rest)
    ensures Going(ws, rs, rest) == Ok(Wrapped(Exec(ws), rs), rest)
  {
  }

  // Words on both sides of a redirection: a.. > f b.. and so on.
  lemma WordsAround<W>(a: seq<W>, t: Token<W>, f: W, b: seq<W>, rest: seq<Token<W>>)
    requires t == Sym('<') || t == Sym('>') || t == Append
    requires |a| + |b| < 10 && (rest == [] || rest[0] in [Sym(')'), Sym('|'), Sym('&'), Sym(';')])
    ensures Simple(Words(a) + ([t, Word(f)] + (Words(b) + rest))) ==
              Ok(Redir(Exec(a + b), f, if t == Sym('<') then In else Out), rest)
  {
    hide Going;
    var m := if t == Sym('<') then In else Out;
    var us := [t, Word(f)] + (Words(b) + rest);
    assert us[2..] == Words(b) + rest;
    GoingWords([], [], a, us);
    GoingStep(a, [], us);
    GoingWords(a, [(f, m)], b, rest);
    GoingEnds(a + b, [(f, m)], rest);
    assert [] + a == a && [] + [(f, m)] == [(f, m)];
    WrapOne(Exec(a + b), [], f, m);
    SimpleGoes(Words(a) + us);
  }

  lemma SimpleGoes<W>(ts: seq<Token<W>>)
    requires ts == [] || ts[0] != Sym('(')
    ensures Simple(ts) == Going([], [], ts)
  {
  }

  lemma {:induction false} GoingWords<W>(ws: seq<W>, rs: seq<(W, Mode)>, more: seq<W>, rest: seq<Token<W>>)
    requires |ws| < MAXARGS
    ensures Going(ws, rs, Words(more) + rest) == if |ws| + |more| < MAXARGS then Going(ws + more, rs, rest) else Err
    decreases |more|
  {
    hide Going;
    if more == [] {
      assert Words(more) + rest == rest && ws + more == ws;
    } else {
      WordsTail(more, rest);
      GoingStep(ws, rs, Words(more) + rest);
      if |ws| + 1 < MAXARGS { GoingWords(ws + [more[0]], rs, more[1..], rest); }
      assert ws + [more[0]] + more[1..] == ws + more;
    }
  }

  // ---- A print with parentheses only where they are needed ----

  // Where a tree may stand without parentheses: 0 as a simple command, 1 in a
  // pipeline's last place, 2 before '&', 3 as a line.
  function Level<W>(c: Cmd<W>): nat {
    match c
    case Exec(_) => 0
    case Redir(_, _, _) => 0
    case Pipe(_, _) => 1
    case Back(_) => 2
    case List(_, _) => 3
  }

  function Shown<W>(c: Cmd<W>, level: nat): seq<Token<W>>
    requires level <= 3
    decreases c, if Level(c) > level then 1 else 0
  {
    if Level(c) > level then [Sym('(')] + Shown(c, 3) + [Sym(')')] else
    match c
    case Exec(args) => Words(args)
    case Redir(d, f, m) => Shown(d, 0) + [Sym(if m.In? then '<' else '>'), Word(f)]
    case Pipe(l, r) => Shown(l, 0) + [Sym('|')] + Shown(r, 1)
    case Back(d) => Shown(d, 2) + [Sym('&')]
    case List(l, r) => Shown(l, 2) + [Sym(';')] + Shown(r, 3)
  }

  // An exec node under redirections.
  predicate Spine<W>(c: Cmd<W>) {
    c.Exec? || (c.Redir? && Spine(c.cmd))
  }

  function SpineWords<W>(c: Cmd<W>): seq<W>
    requires Spine(c)
  {
    if c.Exec? then c.args else SpineWords(c.cmd)
  }

  // parseexec() or parseblock() once c is there.
  function AfterSimple<W>(c: Cmd<W>, rest: seq<Token<W>>): Res<W> {
    var r := Redirs(c, rest);
    if r.Err? || !Spine(c) then r else Args(r.cmd, |SpineWords(c)|, r.rest)
  }

  lemma AfterRedir<W>(c: Cmd<W>, t: Token<W>, f: W, rest: seq<Token<W>>)
    requires Redirecting(t)
    ensures AfterSimple(c, [t, Word(f)] + rest) ==
              AfterSimple(Redir(c, f, if t.Sym? && t.c == '<' then In else Out), rest)
  {
    var ts := [t, Word(f)] + rest;
    assert ts[0] == t && ts[1] == Word(f) && ts[2..] == rest;
  }

  lemma AfterEnds<W>(c: Cmd<W>, rest: seq<Token<W>>)
    requires Ends(rest)
    ensures AfterSimple(c, rest) == Ok(c, rest)
  {
  }

  lemma {:induction false} SimpleShown<W>(c: Cmd<W>, rest: seq<Token<W>>)
    requires rest == [] || Redirecting(rest[0]) || Ending(rest[0])
    ensures Simple(Shown(c, 0) + rest) == if Small(c) then AfterSimple(c, rest) else Err
    decreases c, (0 - Level(c)) % 4
  {
    hide Simple, AfterSimple;
    match c
    case Exec(args) => ExecShown(args, rest);
    case Redir(d, f, m) =>
      var t := Sym(if m.In? then '<' else '>');
      SimpleShown(d, [t, Word(f)] + rest);
      AfterRedir(d, t, f, rest);
      assert Shown(c, 0) + rest == Shown(d, 0) + ([t, Word(f)] + rest);
    case Pipe(_, _) => BlockShown(c, rest);
    case Back(_) => BlockShown(c, rest);
    case List(_, _) => BlockShown(c, rest);
  }

  lemma ExecShown<W>(args: seq<W>, rest: seq<Token<W>>)
    requires rest == [] || Redirecting(rest[0]) || Ending(rest[0])
    ensures Simple(Words(args) + rest) == if |args| < MAXARGS then AfterSimple(Exec(args), rest) else Err
  {
    GoingWords([], [], args, rest);
    assert [] + args == args;
    SimpleGoes(Words(args) + rest);
  }

  lemma {:induction false} BlockShown<W>(c: Cmd<W>, rest: seq<Token<W>>)
    requires Level(c) > 0
    ensures Simple(Shown(c, 0) + rest) == if Small(c) then AfterSimple(c, rest) else Err
    decreases c, (0 - Level(c)) % 4, 0
  {
    var us := [Sym(')')] + rest;
    var ts := Shown(c, 0) + rest;
    assert ts == [Sym('(')] + (Shown(c, 3) + us);
    assert ts[1..] == Shown(c, 3) + us && us[1..] == rest;
    LineShown(c, us);
  }

  lemma PipelineStep<W>(ts: seq<Token<W>>, us: seq<Token<W>>)
    ensures var p := Simple(ts);
      && (p.Ok? && p.rest == [Sym('|')] + us ==>
            var q := Pipeline(us); Pipeline(ts) == if q.Ok? then Ok(Pipe(p.cmd, q.cmd), q.rest) else Err)
      && (p.Err? || !StartsWith(p.rest, '|') ==> Pipeline(ts) == p)
  {
    assert ([Sym('|')] + us)[1..] == us;
  }

  // '>>' makes the same tree as '>'.
  lemma AppendShown<W>(c: Cmd<W>, f: W, rest: seq<Token<W>>)
    requires Ends(rest) && Small(c)
    ensures Simple(Shown(c, 0) + ([Append, Word(f)] + rest)) == Ok(Redir(c, f, Out), rest)
    ensures Simple(Shown(c, 0) + ([Sym('>'), Word(f)] + rest)) == Ok(Redir(c, f, Out), rest)
    ensures Simple(Shown(c, 0) + ([Sym('<'), Word(f)] + rest)) == Ok(Redir(c, f, In), rest)
  {
    hide Simple, Shown, Small;
    forall t: Token<W> | t == Append || t == Sym('>') || t == Sym('<')
      ensures Simple(Shown(c, 0) + ([t, Word(f)] + rest)) == Ok(Redir(c, f, if t == Sym('<') then In else Out), rest)
    {
      SimpleShown(c, [t, Word(f)] + rest);
      AfterRedir(c, t, f, rest);
      AfterEnds(Redir(c, f, if t == Sym('<') then In else Out), rest);
    }
  }

  lemma {:induction false} PipelineShown<W>(c: Cmd<W>, rest: seq<Token<W>>)
    requires Ends(rest) && !StartsWith(rest, '|')
    ensures Pipeline(Shown(c, 1) + rest) == if Small(c) then Ok(c, rest) else Err
    decreases c, (1 - Level(c)) % 4
  {
    hide Pipeline, Simple, AfterSimple;
    if c.Pipe? {
      var us := Shown(c.right, 1) + rest;
      var ts := Shown(c.left, 0) + ([Sym('|')] + us);
      SimpleShown(c.left, [Sym('|')] + us);
      AfterEnds(c.left, [Sym('|')] + us);
      PipelineShown(c.right, rest);
      PipelineStep(ts, us);
      Regrouped(Shown(c.left, 0), Sym('|'), Shown(c.right, 1), rest);
      assert Shown(c, 1) + rest == ts;
    } else {
      SimpleShown(c, rest);
      AfterEnds(c, rest);
      assert Shown(c, 1) == Shown(c, 0);
      PipelineStep(Shown(c, 0) + rest, []);
    }
  }

  // parseline() up to a ';'.
  function Backed<W(==)>(ts: seq<Token<W>>): Res<W> {
    var p := Pipeline(ts);
    if p.Err? then Err else var (c, rest) := Backs(p.cmd, p.rest); Ok(c, rest)
  }

  lemma {:induction false} BackedShown<W>(c: Cmd<W>, rest: seq<Token<W>>)
    requires Ends(rest) && !StartsWith(rest, '|')
    ensures Backed(Shown(c, 2) + rest) == if Small(c) then Ok(Backs(c, rest).0, Backs(c, rest).1) else Err
    decreases c, (2 - Level(c)) % 4
  {
    if c.Back? {
      var us := [Sym('&')] + rest;
      BackedShown(c.cmd, us);
      assert us[1..] == rest;
      assert Shown(c, 2) + rest == Shown(c.cmd, 2) + us;
    } else {
      PipelineShown(c, rest);
      assert Shown(c, 2) == Shown(c, 1);
    }
  }

  lemma LineStep<W>(ts: seq<Token<W>>, us: seq<Token<W>>)
    ensures var p := Backed(ts);
      && (p.Ok? && p.rest == [Sym(';')] + us ==>
            var q := Line(us); Line(ts) == if q.Ok? then Ok(List(p.cmd, q.cmd), q.rest) else Err)
      && (p.Err? || !StartsWith(p.rest, ';') ==> Line(ts) == p)
  {
    assert ([Sym(';')] + us)[1..] == us;
  }

  lemma {:induction false} LineShown<W>(c: Cmd<W>, rest: seq<Token<W>>)
    requires rest == [] || StartsWith(rest, ')')
    ensures Line(Shown(c, 3) + rest) == if Small(c) then Ok(c, rest) else Err
    decreases c, (3 - Level(c)) % 4
  {
    hide Line, Backed, Pipeline;
    if c.List? {
      var us := Shown(c.right, 3) + rest;
      var ts := Shown(c.left, 2) + ([Sym(';')] + us);
      BackedShown(c.left, [Sym(';')] + us);
      LineShown(c.right, rest);
      LineStep(ts, us);
      Regrouped(Shown(c.left, 2), Sym(';'), Shown(c.right, 3), rest);
      assert Shown(c, 3) + rest == ts;
    } else {
      BackedShown(c, rest);
      assert Shown(c, 3) == Shown(c, 2);
      LineStep(Shown(c, 2) + rest, []);
    }
  }

  // Every tree, printed with no more parentheses than it needs, parses back,
  // exactly when its commands have fewer than ten words.
  lemma ShownRoundTrip<W>(c: Cmd<W>)
    ensures Whole(Shown(c, 3)) == if Small(c) then Ok(c, []) else Err
  {
    LineShown(c, []);
    assert Shown(c, 3) + [] == Shown(c, 3);
  }
}
