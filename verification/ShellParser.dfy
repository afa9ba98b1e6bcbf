// The shell's recursive parser (sh.c) on the characters of the line, and
// nulterminate.
module ShellParser {
  import opened Options
  import opened ShellSyntax
  import opened ShellLex
  import opened ShellTexts

  // The parser has done what the grammar says: it panicked, or stopped with
  // a command where the remaining tokens begin.
  ghost predicate Follows(s: string, res: Res<Span>, r: Option<Cmd<Span>>, p: nat)
    requires IsLine(s)
  {
    match res
    case Err => r.None?
    case Ok(c, rest) => r == Some(c) && p <= |s| && Lex(s, p) == rest
  }

  method Parseredirs(s: string, p: nat, cmd: Cmd<Span>) returns (r: Option<Cmd<Span>>, p': nat)
    requires IsLine(s) && p <= |s|
    ensures p <= p' <= |s| && Follows(s, Redirs(cmd, Lex(s, p)), r, p')
  {
    hide Lex;
    var c := cmd;
    var more;
    more, p' := Peek(s, p, {'<', '>'});
    while more
      invariant p <= p' <= |s| && Redirs(cmd, Lex(s, p)) == Redirs(c, Lex(s, p'))
      invariant more == Leads(Lex(s, p'), {'<', '>'})
      decreases |s| - p'
    {
      ghost var ts := Lex(s, p');
      var tok, file;
      tok, p' := Gettoken(s, p');
      file, p' := Gettoken(s, p');
      assert Lex(s, p') == if |ts| >= 2 then ts[2..] else [];
      if file.None? || !file.value.Word? { return None, p'; }
      c := Redir(c, file.value.w, ModeOf(tok.value));
      more, p' := Peek(s, p', {'<', '>'});
    }
    return Some(c), p';
  }

  method Parseline(s: string, p: nat) returns (r: Option<Cmd<Span>>, p': nat)
    requires IsLine(s) && p <= |s|
    ensures p <= p' <= |s| && Follows(s, Line(Lex(s, p)), r, p')
    decreases |s| - p, 3
  {
    hide Lex;
    r, p' := Parsepipe(s, p);
    if r.None? { return; }
    ghost var q := Pipeline(Lex(s, p));
    var cmd := r.value;
    var more;
    more, p' := Peek(s, p', {'&'});
    while more
      invariant p <= p' <= |s| && Backs(q.cmd, q.rest) == Backs(cmd, Lex(s, p'))
      invariant more == Leads(Lex(s, p'), {'&'})
      decreases |s| - p'
    {
      var tok;
      tok, p' := Gettoken(s, p');
      cmd := Back(cmd);
      more, p' := Peek(s, p', {'&'});
    }
    more, p' := Peek(s, p', {';'});
    if !more { return Some(cmd), p'; }
    var semi;
    semi, p' := Gettoken(s, p');
    r, p' := Parseline(s, p');
    if r.Some? { r := Some(List(cmd, r.value)); }
  }

  method Parsepipe(s: string, p: nat) returns (r: Option<Cmd<Span>>, p': nat)
    requires IsLine(s) && p <= |s|
    ensures p <= p' <= |s| && Follows(s, Pipeline(Lex(s, p)), r, p')
    decreases |s| - p, 2
  {
    hide Lex;
    r, p' := Parseexec(s, p);
    if r.None? { return; }
    var cmd := r.value;
    var more;
    more, p' := Peek(s, p', {'|'});
    if more {
      var tok;
      tok, p' := Gettoken(s, p');
      r, p' := Parsepipe(s, p');
      if r.Some? { r := Some(Pipe(cmd, r.value)); }
    }
  }

  method Parseexec(s: string, p: nat) returns (r: Option<Cmd<Span>>, p': nat)
    requires IsLine(s) && p <= |s|
    ensures p <= p' <= |s| && Follows(s, Simple(Lex(s, p)), r, p')
    decreases |s| - p, 1
  {
    var more;
    more, p' := Peek(s, p, {'('});
    if more {
      r, p' := Parseblock(s, p');
      return;
    }
    r, p' := Parseredirs(s, p', Exec([]));
    if r.None? { return; }
    r, p' := ParseArgs(s, p', r.value);
  }

  // parseexec()'s loop.
  method ParseArgs(s: string, p: nat, cmd: Cmd<Span>) returns (r: Option<Cmd<Span>>, p': nat)
    requires IsLine(s) && p <= |s|
    ensures p <= p' <= |s| && Follows(s, Args(cmd, 0, Lex(s, p)), r, p')
  {
    hide Lex;
    var c, argc := cmd, 0;
    var stop;
    stop, p' := Peek(s, p, {'|', ')', '&', ';'});
    while !stop
      invariant p <= p' <= |s| && Args(cmd, 0, Lex(s, p)) == Args(c, argc, Lex(s, p'))
      invariant stop == Leads(Lex(s, p'), {'|', ')', '&', ';'})
      decreases |s| - p'
    {
      var tok;
      tok, p' := Gettoken(s, p');
      if tok.None? { break; }
      if !tok.value.Word? { return None, p'; }
      argc := argc + 1;
      if argc >= MAXARGS { return None, p'; }
      r, p' := Parseredirs(s, p', AddArg(c, tok.value.w));
      if r.None? { return; }
      c := r.value;
      stop, p' := Peek(s, p', {'|', ')', '&', ';'});
    }
    return Some(c), p';
  }

  method Parseblock(s: string, p: nat) returns (r: Option<Cmd<Span>>, p': nat)
    requires IsLine(s) && p <= |s|
    ensures p <= p' <= |s| && Follows(s, Block(Lex(s, p)), r, p')
    decreases |s| - p, 0
  {
    hide Lex;
    var more;
    more, p' := Peek(s, p, {'('});
    if !more { return None, p'; }
    var tok;
    tok, p' := Gettoken(s, p');
    r, p' := Parseline(s, p');
    if r.None? { return; }
    var cmd := r.value;
    more, p' := Peek(s, p', {')'});
    if !more { return None, p'; }
    tok, p' := Gettoken(s, p');
    r, p' := Parseredirs(s, p', cmd);
  }
}
