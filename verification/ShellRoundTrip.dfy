/**
  Printing a command tree and parsing the result gives the tree back, for every tree whose
  words are words and whose commands have fewer than MAXARGS of them.  An output redirection may
  be printed as > or as >>, and any white space may stand between the tokens.
 */
module ShellRoundTrip {
  import opened ShellSyntax
  import opened ShellTokens
  import opened ShellGrammar

  predicate Good(c: Cmd<string>) {
    match c
    case Exec(argv) => |argv| < MAXARGS && forall i :: 0 <= i < |argv| ==> GoodWord(argv[i])
    case Redir(x, file, _) => Good(x) && GoodWord(file)
    case Pipe(l, r) => Good(l) && Good(r)
    case List(l, r) => Good(l) && Good(r)
    case Back(x) => Good(x)
  }

  // ------------------------------------------------------------------------ printing

  /** Which output redirections are printed as >>. */
  type Style = Cmd<string> -> bool

  function Words(ws: seq<string>): (r: seq<Lexeme>)
    ensures |r| == |ws| && forall i :: 0 <= i < |ws| ==> r[i] == Word(ws[i])
  {
    seq(|ws|, i requires 0 <= i < |ws| => Word(ws[i]))
  }

  function RedirSym(c: Cmd<string>, f: Style): Lexeme
    requires c.Redir?
  {
    if !c.out then Sym('<') else if f(c) then APPEND else Sym('>')
  }

  /** A list, a job or a pipeline without parentheses. */
  function Inner(c: Cmd<string>, f: Style): seq<Lexeme>
    requires c.Pipe? || c.List? || c.Back?
    decreases c, 0
  {
    match c
    case List(l, r) => BackToks(l, f) + [Sym(';')] + LineToks(r, f)
    case Back(x) => BackToks(x, f) + [Sym('&')]
    case Pipe(l, r) => ExecToks(l, f) + [Sym('|')] + PipeToks(r, f)
  }

  /** A command where only a simple command may stand, in parentheses if it is not one; then its redirections. */
  function ExecToks(c: Cmd<string>, f: Style): seq<Lexeme>
    decreases c, 1
  {
    match c
    case Exec(argv) => Words(argv)
    case Redir(x, file, _) => ExecToks(x, f) + [RedirSym(c, f), Word(file)]
    case _ => [Sym('(')] + Inner(c, f) + [Sym(')')]
  }

  function PipeToks(c: Cmd<string>, f: Style): seq<Lexeme>
    decreases c, 2
  {
    if c.Pipe? then Inner(c, f) else ExecToks(c, f)
  }

  function BackToks(c: Cmd<string>, f: Style): seq<Lexeme>
    decreases c, 3
  {
    if c.Back? then Inner(c, f) else PipeToks(c, f)
  }

  function LineToks(c: Cmd<string>, f: Style): seq<Lexeme>
    decreases c, 4
  {
    if c.List? then Inner(c, f) else BackToks(c, f)
  }

  // ------------------------------------------------------- what is printed is in the grammar

  lemma {:induction false} WordsSimple(ts: seq<Lexeme>, ws: seq<string>)
    requires ts == Words(ws)
    ensures IsSimple(ts) && ArgsOf(ts) == ws && RedirsOf(ts) == []
    decreases |ws|
  {
    if ws != [] {
      WordsSimple(ts[1..], ws[1..]);
    }
  }

  /** One more redirection behind a simple command. */
  lemma {:induction false} SimpleMore(u: seq<Lexeme>, x: Lexeme, w: Lexeme)
    requires IsSimple(u) && IsRedirSym(x) && w.kind == 'a'
    ensures IsSimple(u + [x, w]) && ArgsOf(u + [x, w]) == ArgsOf(u)
    ensures RedirsOf(u + [x, w]) == RedirsOf(u) + [RedirOf(x, w)]
    decreases |u|
  {
    hide RedirOf;
    var v := u + [x, w];
    if u == [] {
      assert v == [x, w] && v[2..] == [];
    } else if u[0].kind == 'a' {
      assert v[0] == u[0] && v[1..] == u[1..] + [x, w];
      SimpleMore(u[1..], x, w);
    } else {
      assert v[0] == u[0] && v[1] == u[1] && v[2..] == u[2..] + [x, w];
      SimpleMore(u[2..], x, w);
    }
  }

  lemma RedirectedMore(c: Cmd<string>, core: Cmd<string>, rs: seq<Redirection<string>>, r: Redirection<string>)
    requires Redirected(c, core, rs)
    ensures Redirected(Redir(c, r.file, r.out), core, rs + [r])
  {
    assert (rs + [r])[..|rs|] == rs;
  }

  lemma BlockMore(u: seq<Lexeme>, c: Cmd<string>, k: int, core: Cmd<string>, x: Lexeme, w: Lexeme)
    requires IsBlock(u, c, k, core) && IsRedirSym(x) && w.kind == 'a'
    ensures IsBlock(u + [x, w], Redir(c, w.text, RedirOf(x, w).out), k, core)
  {
    hide IsLine, RedirsOf, Redirected;
    var v := u + [x, w];
    assert v[1..k] == u[1..k] && v[k + 1..] == u[k + 1..] + [x, w];
    SimpleMore(u[k + 1..], x, w);
    RedirectedMore(c, core, RedirsOf(u[k + 1..]), RedirOf(x, w));
  }

  lemma ExecMore(u: seq<Lexeme>, c: Cmd<string>, x: Lexeme, w: Lexeme)
    requires IsExec(u, c) && IsRedirSym(x) && w.kind == 'a'
    ensures IsExec(u + [x, w], Redir(c, w.text, RedirOf(x, w).out))
  {
    hide IsBlock, RedirsOf, ArgsOf, Redirected, IsSimple;
    if k, core :| IsBlock(u, c, k, core) {
      BlockMore(u, c, k, core, x, w);
    } else {
      SimpleMore(u, x, w);
      RedirectedMore(c, Exec(ArgsOf(u)), RedirsOf(u), RedirOf(x, w));
    }
  }

  /** In parentheses a line is a command. */
  lemma ParenExec(u: seq<Lexeme>, c: Cmd<string>)
    requires IsLine(u, c)
    ensures IsExec([Sym('(')] + u + [Sym(')')], c)
  {
    hide IsLine;
    var v, k := [Sym('(')] + u + [Sym(')')], |u| + 1;
    assert v[1..k] == u && v[k + 1..] == [] && v[k] == Sym(')');
    assert IsBlock(v, c, k, c);
  }

  lemma ListOf(a: seq<Lexeme>, l: Cmd<string>, b: seq<Lexeme>, r: Cmd<string>)
    requires IsJob(a, l) && IsLine(b, r)
    ensures IsLine(a + [Sym(';')] + b, List(l, r))
  {
    hide IsJob;
    var u := a + [Sym(';')] + b;
    assert u[..|a|] == a && u[|a| + 1..] == b;
    assert ListAt(u, l, r, |a|);
  }

  lemma BackOf(a: seq<Lexeme>, x: Cmd<string>)
    requires IsJob(a, x)
    ensures IsJob(a + [Sym('&')], Back(x)) && IsLine(a + [Sym('&')], Back(x))
  {
    hide IsPipe;
    var u := a + [Sym('&')];
    assert u[..|u| - 1] == a;
  }

  lemma PipeOf(a: seq<Lexeme>, l: Cmd<string>, b: seq<Lexeme>, r: Cmd<string>)
    requires IsExec(a, l) && IsPipe(b, r)
    ensures var u := a + [Sym('|')] + b; IsPipe(u, Pipe(l, r)) && IsJob(u, Pipe(l, r)) && IsLine(u, Pipe(l, r))
  {
    hide IsExec;
    var u := a + [Sym('|')] + b;
    assert u[..|a|] == a && u[|a| + 1..] == b;
    assert PipeAt(u, l, r, |a|);
  }

  lemma {:induction false} InnerPrinted(c: Cmd<string>, f: Style)
    requires (c.Pipe? || c.List? || c.Back?) && Good(c)
    ensures var u := Inner(c, f);
            IsLine(u, c) && (c.Pipe? ==> IsPipe(u, c)) && (c.Pipe? || c.Back? ==> IsJob(u, c))
    decreases c, 0
  {
    hide IsExec, IsPipe, IsJob, IsLine, ExecToks, PipeToks, BackToks, LineToks;
    match c
    case List(l, r) =>
      Printed(l, f);
      Printed(r, f);
      ListOf(BackToks(l, f), l, LineToks(r, f), r);
    case Back(x) =>
      Printed(x, f);
      BackOf(BackToks(x, f), x);
    case Pipe(l, r) =>
      Printed(l, f);
      Printed(r, f);
      PipeOf(ExecToks(l, f), l, PipeToks(r, f), r);
  }

  /** Printing at each level gives tokens that the grammar reads, at that level, as the tree. */
  lemma {:induction false} Printed(c: Cmd<string>, f: Style)
    requires Good(c)
    ensures IsExec(ExecToks(c, f), c) && IsPipe(PipeToks(c, f), c)
    ensures IsJob(BackToks(c, f), c) && IsLine(LineToks(c, f), c)
    decreases c, 1
  {
    match c
    case Exec(argv) => WordsSimple(Words(argv), argv);
    case Redir(x, file, _) =>
      Printed(x, f);
      ExecMore(ExecToks(x, f), x, RedirSym(c, f), Word(file));
    case _ =>
      InnerPrinted(c, f);
      ParenExec(Inner(c, f), c);
  }

  // --------------------------------------------------------------------- the printed line

  /** Every good command tree, printed with > or >> and any white space, parses back to itself. */
  lemma PrintParse(c: Cmd<string>, f: Style, s: Line)
    requires Good(c) && Spells(s, 0, LineToks(c, f))
    ensures var r := ParseCmd(s); r.Ok? && TreeText(r.value, s) == c
  {
    hide ParseCmd, LineToks, IsLine, Spells;
    Printed(c, f);
    ParsesExactly(s, LineToks(c, f), c);
  }

  /** Tokens as text, each behind white space of its own: gaps[i] in front of token i, the last gap at the end. */
  function Render(ts: seq<Lexeme>, gaps: seq<string>): string
    requires |gaps| == |ts| + 1
  {
    if ts == [] then gaps[0] else gaps[0] + ts[0].text + Render(ts[1..], gaps[1..])
  }

  predicate IsGap(g: string) { forall i :: 0 <= i < |g| ==> IsSpace(g[i]) }

  /** White space between all tokens. */
  predicate GoodGaps(gaps: seq<string>) {
    && gaps != [] && (forall i :: 0 <= i < |gaps| ==> IsGap(gaps[i]))
    && (forall i :: 0 < i < |gaps| - 1 ==> gaps[i] != "")
  }

  lemma {:induction false} RenderNoNul(ts: seq<Lexeme>, gaps: seq<string>)
    requires GoodTokens(ts) && |gaps| == |ts| + 1 && forall i :: 0 <= i < |gaps| ==> IsGap(gaps[i])
    ensures '\0' !in Render(ts, gaps)
    decreases |ts|
  {
    assert IsGap(gaps[0]);
    if ts != [] {
      assert GoodToken(ts[0]);
      RenderNoNul(ts[1..], gaps[1..]);
    }
  }

  /** Text with a gap in front. */
  lemma GapInFront(s: Line, p: int, g: string, more: string)
    requires 0 <= p <= |s| && s[p..] == g + more && IsGap(g)
    ensures p + |g| <= |s| && Blank(s, p, p + |g|) && s[p + |g|..] == more
  {
    var q := p + |g|;
    assert |s[p..]| == |g| + |more|;
    forall i | p <= i < q
      ensures IsSpace(s[i])
    {
      assert s[i] == s[p..][i - p] == g[i - p];
    }
    assert s[q..] == s[p..][|g|..];
  }

  lemma {:induction false} RenderSpells(s: Line, p: int, ts: seq<Lexeme>, gaps: seq<string>)
    requires GoodTokens(ts) && |gaps| == |ts| + 1 && GoodGaps(gaps)
    requires 0 <= p <= |s| && s[p..] == Render(ts, gaps)
    ensures Spells(s, p, ts)
    decreases |ts|
  {
    hide GoodToken;
    if ts == [] {
      GapInFront(s, p, gaps[0], "");
    } else {
      var x, more := ts[0], Render(ts[1..], gaps[1..]);
      assert gaps[0] + x.text + more == gaps[0] + (x.text + more);
      GapInFront(s, p, gaps[0], x.text + more);
      var q := p + |gaps[0]|;
      var e := q + |x.text|;
      assert s[q..e] == s[q..][..|x.text|] == x.text;
      assert s[e..] == s[q..][|x.text|..] == more;
      EndsThere(s, e, ts, gaps);
      RenderSpells(s, e, ts[1..], gaps[1..]);
      assert Lies(s, q, x);
    }
  }

  lemma EndsThere(s: Line, e: int, ts: seq<Lexeme>, gaps: seq<string>)
    requires ts != [] && |gaps| == |ts| + 1 && GoodGaps(gaps) && GoodTokens(ts)
    requires 0 <= e <= |s| && s[e..] == Render(ts[1..], gaps[1..])
    ensures GoodToken(ts[0]) && MayEnd(s, e, ts[0]) && GoodGaps(gaps[1..]) && GoodTokens(ts[1..])
  {
    if e < |s| {
      assert s[e] == s[e..][0];
      assert gaps[1] != "" ==> IsSpace(gaps[1][0]);
    }
  }

  function Print(c: Cmd<string>, f: Style, gaps: seq<string>): string
    requires |gaps| == |LineToks(c, f)| + 1
  {
    Render(LineToks(c, f), gaps)
  }

  lemma WordsGood(ws: seq<string>)
    requires forall i :: 0 <= i < |ws| ==> GoodWord(ws[i])
    ensures GoodTokens(Words(ws))
  {
  }

  lemma {:induction false} InnerGood(c: Cmd<string>, f: Style)
    requires (c.Pipe? || c.List? || c.Back?) && Good(c)
    ensures GoodTokens(Inner(c, f))
    decreases c, 0
  {
    match c
    case List(l, r) => ToksGood(l, f); ToksGood(r, f);
    case Back(x) => ToksGood(x, f);
    case Pipe(l, r) => ToksGood(l, f); ToksGood(r, f);
  }

  lemma {:induction false} ToksGood(c: Cmd<string>, f: Style)
    requires Good(c)
    ensures GoodTokens(ExecToks(c, f)) && GoodTokens(PipeToks(c, f))
    ensures GoodTokens(BackToks(c, f)) && GoodTokens(LineToks(c, f))
    decreases c, 1
  {
    match c
    case Exec(argv) => WordsGood(argv);
    case Redir(x, _, _) => ToksGood(x, f);
    case _ => InnerGood(c, f);
  }

  /** A printed line is a line, and spells the tokens printed. */
  lemma PrintSpells(c: Cmd<string>, f: Style, gaps: seq<string>)
    requires Good(c) && |gaps| == |LineToks(c, f)| + 1 && GoodGaps(gaps)
    ensures '\0' !in Print(c, f, gaps) && Spells(Print(c, f, gaps), 0, LineToks(c, f))
  {
    hide LineToks;
    ToksGood(c, f);
    RenderNoNul(LineToks(c, f), gaps);
    var s: Line := Print(c, f, gaps);
    assert s[0..] == s;
    RenderSpells(s, 0, LineToks(c, f), gaps);
  }
}
