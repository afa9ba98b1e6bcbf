// The regular expression matcher of grep.c, against the language of the
// pattern.
module Grep {

  // ---- Patterns and their language ----

  datatype Item = One(c: char) | Star(c: char)

  // A pattern without its leading '^': what it repeats, in order, and
  // whether it ends in an anchoring '$'.
  datatype Pattern = Pattern(items: seq<Item>, atEnd: bool)

  function Prefixed(x: Item, p: Pattern): Pattern {
    Pattern([x] + p.items, p.atEnd)
  }

  function Parse(re: string): Pattern {
    if re == "" then Pattern([], false)
    else if |re| >= 2 && re[1] == '*' then Prefixed(Star(re[0]), Parse(re[2..]))
    else if re == "$" then Pattern([], true)
    else Prefixed(One(re[0]), Parse(re[1..]))
  }

  predicate Fits(c: char, x: char) {
    c == '.' || c == x
  }

  predicate AllFit(c: char, w: string) {
    forall i | 0 <= i < |w| :: Fits(c, w[i])
  }

  // w is a word of the language: one character for each One, any number for
  // each Star.
  predicate Word(items: seq<Item>, w: string) {
    if items == [] then w == ""
    else match items[0]
      case One(c) => w != "" && Fits(c, w[0]) && Word(items[1..], w[1..])
      case Star(c) => exists k | 0 <= k <= |w| :: AllFit(c, w[..k]) && Word(items[1..], w[k..])
  }

  // Some prefix of text, all of it if anchored at the end, is a word.
  predicate Begins(p: Pattern, text: string) {
    exists j | 0 <= j <= |text| :: (p.atEnd ==> j == |text|) && Word(p.items, text[..j])
  }

  // The meaning of a whole pattern: some substring of text is a word, at
  // the beginning after '^', at the end before '$'.
  predicate Matches(re: string, text: string) {
    var fromStart := re != "" && re[0] == '^';
    var p := Parse(if fromStart then re[1..] else re);
    exists i, j | 0 <= i <= j <= |text| ::
      && (fromStart ==> i == 0) && (p.atEnd ==> j == |text|)
      && Word(p.items, text[i..j])
  }

  // ---- The language, one item at a time ----

  lemma BeginsNothing(text: string)
    ensures Begins(Pattern([], false), text)
    ensures Begins(Pattern([], true), text) <==> text == ""
  {
    assert Word([], text[..0]);
  }

  lemma BeginsOne(c: char, p: Pattern, text: string)
    ensures Begins(Prefixed(One(c), p), text) <==> text != "" && Fits(c, text[0]) && Begins(p, text[1..])
  {
    var q := Prefixed(One(c), p);
    assert q.items[1..] == p.items;
    if Begins(q, text) {
      var j :| 0 <= j <= |text| && (q.atEnd ==> j == |text|) && Word(q.items, text[..j]);
      assert text[1..][..j - 1] == text[..j][1..];
    }
    if text != "" && Fits(c, text[0]) && Begins(p, text[1..]) {
      var j :| 0 <= j <= |text[1..]| && (p.atEnd ==> j == |text[1..]|) && Word(p.items, text[1..][..j]);
      assert text[..j + 1][1..] == text[1..][..j];
      assert Word(q.items, text[..j + 1]);
    }
  }

  // Beginning with a star of c after k characters.
  predicate StarThen(c: char, p: Pattern, text: string, k: nat) {
    k <= |text| && AllFit(c, text[..k]) && Begins(p, text[k..])
  }

  predicate StarBegins(c: char, p: Pattern, text: string) {
    exists k | 0 <= k <= |text| :: StarThen(c, p, text, k)
  }

  lemma BeginsStar(c: char, p: Pattern, text: string)
    ensures Begins(Prefixed(Star(c), p), text) <==> StarBegins(c, p, text)
  {
    var q := Prefixed(Star(c), p);
    assert q.items[1..] == p.items;
    if Begins(q, text) {
      var j :| 0 <= j <= |text| && (q.atEnd ==> j == |text|) && Word(q.items, text[..j]);
      var k :| 0 <= k <= j && AllFit(c, text[..j][..k]) && Word(p.items, text[..j][k..]);
      assert text[..j][..k] == text[..k] && text[..j][k..] == text[k..][..j - k];
      assert StarThen(c, p, text, k);
    }
    if StarBegins(c, p, text) {
      var k :| 0 <= k <= |text| && StarThen(c, p, text, k);
      var j :| 0 <= j <= |text[k..]| && (p.atEnd ==> j == |text[k..]|) && Word(p.items, text[k..][..j]);
      assert text[..j + k][..k] == text[..k] && text[..j + k][k..] == text[k..][..j];
      assert Word(q.items, text[..j + k]);
    }
  }

  // ---- The matcher ----

  // matchhere()
  method Matchhere(re: string, text: string) returns (r: bool)
    ensures r <==> Begins(Parse(re), text)
    decreases |re|, 0
  {
    BeginsNothing(text);
    if re == "" { return true; }
    if |re| >= 2 && re[1] == '*' {
      BeginsStar(re[0], Parse(re[2..]), text);
      r := Matchstar(re[0], re[2..], text);
      return;
    }
    if re == "$" { return text == ""; }
    BeginsOne(re[0], Parse(re[1..]), text);
    if text != "" && (re[0] == '.' || re[0] == text[0]) {
      r := Matchhere(re[1..], text[1..]);
      return;
    }
    return false;
  }

  // matchstar()
  method Matchstar(c: char, re: string, text: string) returns (r: bool)
    ensures r <==> StarBegins(c, Parse(re), text)
    decreases |re|, 1
  {
    var i := 0;
    while true
      invariant 0 <= i <= |text| && AllFit(c, text[..i])
      invariant forall k: nat | k < i :: !StarThen(c, Parse(re), text, k)
      decreases |text| - i
    {
      var here := Matchhere(re, text[i..]);
      assert here <==> StarThen(c, Parse(re), text, i);
      if here { return true; }
      if i == |text| || !(text[i] == c || c == '.') { break; }
      assert text[..i + 1] == text[..i] + [text[i]];
      i := i + 1;
    }
    forall k: nat ensures !StarThen(c, Parse(re), text, k) {
      if i < k <= |text| { assert text[..k][i] == text[i]; }
    }
    return false;
  }

  // match()
  method Match(re: string, text: string) returns (r: bool)
    ensures r <==> Matches(re, text)
  {
    if re != "" && re[0] == '^' {
      MatchesFromStart(re, text);
      r := Matchhere(re[1..], text);
      return;
    }
    MatchesAnywhere(re, text);
    var i := 0;
    while true
      invariant 0 <= i <= |text|
      invariant forall k | 0 <= k < i :: !Begins(Parse(re), text[k..])
      decreases |text| - i
    {
      var here := Matchhere(re, text[i..]);
      if here { return true; }
      if i == |text| { break; }
      i := i + 1;
    }
    return false;
  }

  lemma MatchesFromStart(re: string, text: string)
    requires re != "" && re[0] == '^'
    ensures Matches(re, text) <==> Begins(Parse(re[1..]), text)
  {
    var p := Parse(re[1..]);
    if Matches(re, text) {
      var i, j :| 0 <= i <= j <= |text| && i == 0 && (p.atEnd ==> j == |text|) && Word(p.items, text[i..j]);
      assert text[i..j] == text[..j];
    }
    if Begins(p, text) {
      var j :| 0 <= j <= |text| && (p.atEnd ==> j == |text|) && Word(p.items, text[..j]);
      assert text[0..j] == text[..j];
    }
  }

  lemma MatchesAnywhere(re: string, text: string)
    requires re == "" || re[0] != '^'
    ensures Matches(re, text) <==> exists i | 0 <= i <= |text| :: Begins(Parse(re), text[i..])
  {
    var p := Parse(re);
    if Matches(re, text) {
      var i, j :| 0 <= i <= j <= |text| && (p.atEnd ==> j == |text|) && Word(p.items, text[i..j]);
      assert text[i..][..j - i] == text[i..j];
      assert Begins(p, text[i..]);
    }
    if i :| 0 <= i <= |text| && Begins(p, text[i..]) {
      var j :| 0 <= j <= |text[i..]| && (p.atEnd ==> j == |text[i..]|) && Word(p.items, text[i..][..j]);
      assert text[i..i + j] == text[i..][..j];
    }
  }

  // ---- What patterns mean, character by character ----

  // The pattern's characters are in text at i, each '.' standing for any one.
  predicate At(re: string, text: string, i: nat) {
    i + |re| <= |text| && forall k | 0 <= k < |re| :: re[k] == '.' || re[k] == text[i + k]
  }

  function Ones(re: string): seq<Item> {
    seq(|re|, k requires 0 <= k < |re| => One(re[k]))
  }

  // No '*' after a character, and no '$' that is last.
  predicate Plain(re: string) {
    (forall k | 1 <= k < |re| :: re[k] != '*') && (re != "" ==> re[|re| - 1] != '$')
  }

  lemma {:induction false} ParsePlain(re: string)
    requires Plain(re)
    ensures Parse(re) == Pattern(Ones(re), false) && Parse(re + "$") == Pattern(Ones(re), true)
  {
    if re == "" {
      assert re + "$" == "$";
    } else {
      ParsePlain(re[1..]);
      assert (re + "$")[1..] == re[1..] + "$";
      assert |re| == 1 ==> (re + "$")[1] == '$';
      assert |re| > 1 ==> (re + "$")[1] == re[1];
      assert Ones(re) == [One(re[0])] + Ones(re[1..]);
    }
  }

  lemma {:induction false} WordPlain(re: string, w: string)
    ensures Word(Ones(re), w) <==> |w| == |re| && At(re, w, 0)
  {
    if re != "" {
      assert Ones(re)[1..] == Ones(re[1..]);
      if w != "" {
        WordPlain(re[1..], w[1..]);
        AtTail(re, w);
      }
    }
  }

  lemma AtTail(re: string, w: string)
    requires re != "" && w != ""
    ensures At(re, w, 0) <==> (re[0] == '.' || re[0] == w[0]) && At(re[1..], w[1..], 0)
  {
    if (re[0] == '.' || re[0] == w[0]) && At(re[1..], w[1..], 0) {
      forall k | 0 <= k < |re| ensures re[k] == '.' || re[k] == w[k] {
        if k > 0 { assert re[1..][k - 1] == '.' || re[1..][k - 1] == w[1..][k - 1]; }
      }
    }
  }

  lemma BeginsPlain(re: string, text: string, i: nat, atEnd: bool)
    requires i <= |text|
    ensures Begins(Pattern(Ones(re), atEnd), text[i..]) <==> At(re, text, i) && (atEnd ==> i + |re| == |text|)
  {
    hide Word;
    var t := text[i..];
    if Begins(Pattern(Ones(re), atEnd), t) {
      var j :| 0 <= j <= |t| && (atEnd ==> j == |t|) && Word(Ones(re), t[..j]);
      WordPlain(re, t[..j]);
    }
    if At(re, text, i) && (atEnd ==> i + |re| == |text|) {
      WordPlain(re, t[..|re|]);
      assert Word(Ones(re), t[..|re|]);
    }
  }

  // A pattern without '*' is found where its characters are: anywhere, at
  // the beginning, at the end, or as the whole text.
  lemma PlainPattern(re: string, text: string)
    requires Plain(re)
    ensures re == "" || re[0] != '^' ==>
              && (Matches(re, text) <==> exists i | 0 <= i <= |text| :: At(re, text, i))
              && (Matches(re + "$", text) <==> |re| <= |text| && At(re, text, |text| - |re|))
    ensures Matches("^" + re, text) <==> At(re, text, 0)
    ensures Matches("^" + re + "$", text) <==> |re| == |text| && At(re, text, 0)
  {
    hide Matches, Parse, Begins, At;
    ParsePlain(re);
    var a, b := "^" + re, "^" + re + "$";
    assert a[1..] == re && b[1..] == re + "$" && text[0..] == text;
    MatchesFromStart(a, text);
    MatchesFromStart(b, text);
    forall i | 0 <= i <= |text|
      ensures Begins(Parse(re), text[i..]) <==> At(re, text, i)
      ensures Begins(Parse(re + "$"), text[i..]) <==> At(re, text, i) && i + |re| == |text|
    {
      BeginsPlain(re, text, i, false);
      BeginsPlain(re, text, i, true);
    }
    if re == "" || re[0] != '^' {
      MatchesAnywhere(re, text);
      assert (re + "$")[0] != '^';
      MatchesAnywhere(re + "$", text);
      if |re| <= |text| { assert 0 <= |text| - |re| <= |text|; }
    }
  }

  // The laws of the anchored pattern, one character of it at a time.
  lemma AnchoredNothing(text: string)
    ensures Matches("^", text) && (Matches("^$", text) <==> text == "")
  {
    MatchesFromStart("^", text);
    MatchesFromStart("^$", text);
    BeginsNothing(text);
  }

  lemma AnchoredIs(re: string, text: string)
    ensures Matches("^" + re, text) <==> Begins(Parse(re), text)
  {
    assert ("^" + re)[1..] == re;
    MatchesFromStart("^" + re, text);
  }

  lemma ParsedOne(c: char, re: string)
    requires (re == "" || re[0] != '*') && (c != '$' || re != "")
    ensures Parse([c] + re) == Prefixed(One(c), Parse(re))
  {
    var w := [c] + re;
    assert w[0] == c && w[1..] == re && (re != "" ==> w[1] == re[0]);
  }

  lemma AnchoredOne(c: char, re: string, text: string)
    requires (re == "" || re[0] != '*') && (c != '$' || re != "")
    ensures Matches("^" + ([c] + re), text) <==>
              text != "" && (c == '.' || c == text[0]) && Matches("^" + re, text[1..])
  {
    hide Matches, Begins, Parse;
    AnchoredIs([c] + re, text);
    ParsedOne(c, re);
    BeginsOne(c, Parse(re), text);
    if text != "" { AnchoredIs(re, text[1..]); }
  }

  lemma AnchoredStar(c: char, re: string, text: string)
    ensures Matches("^" + ([c] + "*" + re), text) <==>
              exists k | 0 <= k <= |text| ::
                (c == '.' || forall j | 0 <= j < k :: text[j] == c) && Matches("^" + re, text[k..])
  {
    hide Matches, Begins, Parse;
    AnchoredIs([c] + "*" + re, text);
    ParsedStar(c, re, text);
    forall k | 0 <= k <= |text| ensures Matches("^" + re, text[k..]) <==> Begins(Parse(re), text[k..]) {
      AnchoredIs(re, text[k..]);
    }
  }

  // Without '^' the pattern may be found anywhere.
  lemma FoundSomewhere(re: string, text: string)
    requires re == "" || re[0] != '^'
    ensures Matches(re, text) <==> exists i | 0 <= i <= |text| :: Matches("^" + re, text[i..])
  {
    hide Matches, Begins, Parse;
    MatchesAnywhere(re, text);
    forall i | 0 <= i <= |text| ensures Matches("^" + re, text[i..]) <==> Begins(Parse(re), text[i..]) {
      AnchoredIs(re, text[i..]);
    }
  }

  lemma ParsedStar(c: char, re: string, text: string)
    ensures Begins(Parse([c] + "*" + re), text) <==>
              exists k | 0 <= k <= |text| ::
                (c == '.' || forall j | 0 <= j < k :: text[j] == c) && Begins(Parse(re), text[k..])
  {
    hide Begins;
    var w := [c] + "*" + re;
    assert w[0] == c && w[1] == '*' && w[2..] == re;
    BeginsStar(c, Parse(re), text);
    forall k | 0 <= k <= |text|
      ensures AllFit(c, text[..k]) <==> c == '.' || forall j | 0 <= j < k :: text[j] == c
    {
      if AllFit(c, text[..k]) && c != '.' {
        forall j | 0 <= j < k ensures text[j] == c { assert Fits(c, text[..k][j]); }
      }
    }
    if StarBegins(c, Parse(re), text) {
      var k :| 0 <= k <= |text| && StarThen(c, Parse(re), text, k);
      assert Begins(Parse(re), text[k..]);
    }
    if k :| 0 <= k <= |text| && (c == '.' || forall j | 0 <= j < k :: text[j] == c) && Begins(Parse(re), text[k..]) {
      assert StarThen(c, Parse(re), text, k);
    }
  }
}
