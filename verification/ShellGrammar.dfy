/**
  The shell's grammar, and that the parser is exactly it: what the parser builds is a reading of the
  line's tokens by the grammar, every reading is what the parser builds, and it panics on a line
  exactly if there is none.

      line   =  job | job ; line
      job    =  pipe | job &
      pipe   =  exec | exec '|' pipe
      exec   =  simple | ( line ) redirs
      simple =  any words, fewer than MAXARGS, and redirections, in any order
      redirs =  any redirections, each <, > or >> and a word
 */
module ShellGrammar {
  import opened ShellSyntax
  import opened ShellTokens

  // ----------------------------------------------------------------------- the grammar

  predicate IsRedirSym(x: Lexeme) { x.kind == '<' || x.kind == '>' || x.kind == '+' }

  /** Words and redirections. */
  predicate IsSimple(u: seq<Lexeme>) {
    if u == [] then true
    else if u[0].kind == 'a' then IsSimple(u[1..])
    else |u| >= 2 && IsRedirSym(u[0]) && u[1].kind == 'a' && IsSimple(u[2..])
  }

  /** The words that are not file names. */
  function ArgsOf(u: seq<Lexeme>): seq<string>
    requires IsSimple(u)
  {
    if u == [] then [] else if u[0].kind == 'a' then [u[0].text] + ArgsOf(u[1..]) else ArgsOf(u[2..])
  }

  function RedirsOf(u: seq<Lexeme>): seq<Redirection<string>>
    requires IsSimple(u)
  {
    if u == [] then [] else if u[0].kind == 'a' then RedirsOf(u[1..]) else [RedirOf(u[0], u[1])] + RedirsOf(u[2..])
  }

  /** > and >> both redirect the output. */
  function RedirOf(x: Lexeme, w: Lexeme): Redirection<string> {
    Redirection(w.text, x.kind == '>' || x.kind == '+')
  }

  predicate IsRedirs(u: seq<Lexeme>) { IsSimple(u) && ArgsOf(u) == [] }

  /** c is core inside the redirections, the last one outermost. */
  predicate Redirected(c: Cmd<string>, core: Cmd<string>, rs: seq<Redirection<string>>) {
    if rs == [] then c == core
    else
      var r := rs[|rs| - 1];
      c.Redir? && c.file == r.file && c.out == r.out && Redirected(c.cmd, core, rs[..|rs| - 1])
  }

  ghost predicate IsBlock(u: seq<Lexeme>, c: Cmd<string>, k: int, core: Cmd<string>)
    decreases |u|, 0
  {
    && 0 < k < |u| && u[0].kind == '(' && u[k].kind == ')' && IsLine(u[1..k], core)
    && IsRedirs(u[k + 1..]) && Redirected(c, core, RedirsOf(u[k + 1..]))
  }

  ghost predicate IsExec(u: seq<Lexeme>, c: Cmd<string>)
    decreases |u|, 1
  {
    || (IsSimple(u) && |ArgsOf(u)| < MAXARGS && Redirected(c, Exec(ArgsOf(u)), RedirsOf(u)))
    || exists k, core :: IsBlock(u, c, k, core)
  }

  ghost predicate IsPipe(u: seq<Lexeme>, c: Cmd<string>)
    decreases |u|, 2
  {
    IsExec(u, c) || (c.Pipe? && exists k :: PipeAt(u, c.left, c.right, k))
  }

  ghost predicate PipeAt(u: seq<Lexeme>, l: Cmd<string>, r: Cmd<string>, k: int)
    decreases |u|, 1
  {
    0 <= k < |u| && u[k].kind == '|' && IsExec(u[..k], l) && IsPipe(u[k + 1..], r)
  }

  ghost predicate IsJob(u: seq<Lexeme>, c: Cmd<string>)
    decreases |u|, 3
  {
    IsPipe(u, c) || (c.Back? && u != [] && u[|u| - 1].kind == '&' && IsJob(u[..|u| - 1], c.job))
  }

  ghost predicate IsLine(u: seq<Lexeme>, c: Cmd<string>)
    decreases |u|, 4
  {
    IsJob(u, c) || (c.List? && exists k :: ListAt(u, c.first, c.rest, k))
  }

  ghost predicate ListAt(u: seq<Lexeme>, l: Cmd<string>, r: Cmd<string>, k: int)
    decreases |u|, 3
  {
    0 <= k < |u| && u[k].kind == ';' && IsJob(u[..k], l) && IsLine(u[k + 1..], r)
  }

  // ----------------------------------------------------------------------- trees of words

  function Text(w: Span, s: string): string {
    if 0 <= w.q <= w.eq <= |s| then s[w.q..w.eq] else ""
  }

  function Texts(ws: seq<Span>, s: string): (r: seq<string>)
    ensures |r| == |ws|
  {
    seq(|ws|, i requires 0 <= i < |ws| => Text(ws[i], s))
  }

  function RedirText(r: Redirection<Span>, s: string): Redirection<string> {
    Redirection(Text(r.file, s), r.out)
  }

  function RedirTexts(rs: seq<Redirection<Span>>, s: string): (r: seq<Redirection<string>>)
    ensures |r| == |rs|
  {
    seq(|rs|, i requires 0 <= i < |rs| => RedirText(rs[i], s))
  }

  /** The tree with each word's text in place of its position. */
  function TreeText(c: Cmd<Span>, s: string): Cmd<string> {
    match c
    case Exec(argv) => Exec(Texts(argv, s))
    case Redir(x, file, out) => Redir(TreeText(x, s), Text(file, s), out)
    case Pipe(l, r) => Pipe(TreeText(l, s), TreeText(r, s))
    case List(l, r) => List(TreeText(l, s), TreeText(r, s))
    case Back(x) => Back(TreeText(x, s))
  }

  lemma {:induction false} WrapText(c: Cmd<Span>, rs: seq<Redirection<Span>>, s: string)
    ensures Redirected(TreeText(Wrap(c, rs), s), TreeText(c, s), RedirTexts(rs, s))
  {
    if rs != [] {
      var n := |rs| - 1;
      WrapText(c, rs[..n], s);
      assert RedirTexts(rs, s)[..n] == RedirTexts(rs[..n], s);
    }
  }

  lemma {:induction false} RedirectedOnce(a: Cmd<string>, b: Cmd<string>, core: Cmd<string>,
                                          rs: seq<Redirection<string>>)
    requires Redirected(a, core, rs) && Redirected(b, core, rs)
    ensures a == b
  {
    if rs != [] {
      RedirectedOnce(a.cmd, b.cmd, core, rs[..|rs| - 1]);
    }
  }

  // ------------------------------------------------------------------------- redirections

  /** parseredirs takes one redirection at a time. */
  lemma OneRedir(s: Line, p: int)
    requires 0 <= p <= |s| && Peek(s, p, "<>")
    ensures var t := GetToken(s, p);
            var w := GetToken(s, t.next);
            var rest := ParseRedirs(s, w.next);
            && w.next > p && (t.kind == '<' || t.kind == '>' || t.kind == '+')
            && ParseRedirs(s, p) == if w.kind != 'a' || rest.Panic? then Panic
                                    else Ok([Redirection(Span(w.q, w.eq), t.kind != '<')] + rest.value, rest.pos)
  {
  }

  lemma RedirTextsCons(x: Redirection<Span>, rs: seq<Redirection<Span>>, s: string)
    ensures RedirTexts([x] + rs, s) == [RedirText(x, s)] + RedirTexts(rs, s)
  {
  }

  lemma RedirTextsNone(s: string)
    ensures RedirTexts([], s) == []
  {
  }

  lemma TextsAppend(a: seq<Span>, b: Span, s: string)
    ensures Texts(a + [b], s) == Texts(a, s) + [Text(b, s)]
  {
  }

  lemma RedirTextsAppend(a: seq<Redirection<Span>>, b: seq<Redirection<Span>>, s: string)
    ensures RedirTexts(a + b, s) == RedirTexts(a, s) + RedirTexts(b, s)
  {
  }

  /** What peek sees of a good token. */
  lemma FirstIs(ts: seq<Lexeme>)
    requires GoodTokens(ts) && ts != []
    ensures First(ts) in "<>" <==> IsRedirSym(ts[0])
    ensures forall c :: c in "|)&;(" ==> (First(ts) == c <==> ts[0].kind == c)
  {
    assert GoodToken(ts[0]);
  }

  /** The first two tokens, where there is a redirection. */
  lemma RedirHead(s: Line, p: int)
    requires 0 <= p <= |s| && Peek(s, p, "<>")
    ensures var t := GetToken(s, p);
            var w := GetToken(s, t.next);
            var ts := Lex(s, p);
            && ts != [] && IsRedirSym(ts[0]) && ts[0].kind == t.kind
            && (w.kind == 'a' <==> |ts| >= 2 && ts[1].kind == 'a')
            && (w.kind == 'a' ==> ts[1].text == Text(Span(w.q, w.eq), s) && Lex(s, w.next) == ts[2..]
                                  && RedirText(Redirection(Span(w.q, w.eq), t.kind != '<'), s) == RedirOf(ts[0], ts[1]))
  {
    hide Lex, GetToken, Peek, SkipSpace, WordEnd;
    OneRedir(s, p);
    LexFirst(s, p, "<>");
    LexFirst(s, GetToken(s, p).next, "");
    if |Lex(s, p)| >= 2 {
      assert Lex(s, p)[1..][1..] == Lex(s, p)[2..];
    }
  }

  lemma NoRedirs(s: Line, p: int)
    requires 0 <= p <= |s| && (Lex(s, p) != [] ==> !IsRedirSym(Lex(s, p)[0]))
    ensures ParseRedirs(s, p) == Ok([], SkipSpace(s, p)) && Lex(s, SkipSpace(s, p)) == Lex(s, p)
    ensures GetToken(s, SkipSpace(s, p)) == GetToken(s, p)
  {
    LexFirst(s, p, "<>");
    LexGood(s, p);
    SkipTwice(s, p);
    hide Lex;
    if Lex(s, p) != [] {
      FirstIs(Lex(s, p));
    }
  }

  /** parseredirs reads redirections, and stops in front of anything else. */
  lemma {:induction false} RedirsRead(s: Line, p: int, u: seq<Lexeme>, rest: seq<Lexeme>)
    requires 0 <= p <= |s| && Lex(s, p) == u + rest && IsRedirs(u) && (rest != [] ==> !IsRedirSym(rest[0]))
    ensures var r := ParseRedirs(s, p); r.Ok? && RedirTexts(r.value, s) == RedirsOf(u) && Lex(s, r.pos) == rest
    decreases |u|
  {
    hide Lex, GetToken, Peek, SkipSpace, WordEnd, RedirTexts, ParseRedirs, First, GoodTokens, RedirText, RedirOf, Text;
    if u == [] {
      assert u + rest == rest;
      NoRedirs(s, p);
      RedirTextsNone(s);
    } else {
      LexFirst(s, p, "<>");
      LexGood(s, p);
      FirstIs(u + rest);
      RedirHead(s, p);
      OneRedir(s, p);
      var t := GetToken(s, p);
      var w := GetToken(s, t.next);
      assert (u + rest)[2..] == u[2..] + rest;
      RedirsRead(s, w.next, u[2..], rest);
      RedirTextsCons(Redirection(Span(w.q, w.eq), t.kind != '<'), ParseRedirs(s, w.next).value, s);
    }
  }

  /** What parseredirs takes are redirections, all there are. */
  lemma {:induction false} RedirsFound(s: Line, p: int) returns (u: seq<Lexeme>)
    requires 0 <= p <= |s| && ParseRedirs(s, p).Ok?
    ensures var r := ParseRedirs(s, p);
            && Lex(s, p) == u + Lex(s, r.pos) && IsRedirs(u) && RedirsOf(u) == RedirTexts(r.value, s)
            && (Lex(s, r.pos) != [] ==> !IsRedirSym(Lex(s, r.pos)[0]))
    decreases |s| - p
  {
    hide Lex, GetToken, Peek, SkipSpace, WordEnd, RedirTexts;
    LexFirst(s, p, "<>");
    LexGood(s, p);
    if Peek(s, p, "<>") {
      hide ParseRedirs;
      RedirHead(s, p);
      OneRedir(s, p);
      var t := GetToken(s, p);
      var w := GetToken(s, t.next);
      var v := RedirsFound(s, w.next);
      var ts := Lex(s, p);
      u := [ts[0], ts[1]] + v;
      assert u[2..] == v && ts == [ts[0], ts[1]] + ts[2..];
      RedirTextsCons(Redirection(Span(w.q, w.eq), t.kind != '<'), ParseRedirs(s, w.next).value, s);
    } else {
      u := [];
      SkipTwice(s, p);
      if Lex(s, p) != [] {
        FirstIs(Lex(s, p));
      }
      assert RedirTexts([], s) == [];
    }
  }

  // ---------------------------------------------------------------------- simple commands

  /** What is left of parseexec at p, with the words and redirections of c read so far. */
  ghost function ReadOn(s: Line, p: int, c: Simple): (r: Parsed<Simple>)
    requires 0 <= p <= |s|
    ensures Ends(s, p, r)
  {
    var v := ParseRedirs(s, p);
    if v.Panic? then Panic else ParseArgs(s, v.pos, Simple(c.argv, c.redirs + v.value))
  }

  /** The end of a simple command. */
  ghost predicate Stops(rest: seq<Lexeme>) { rest == [] || rest[0].kind in "|)&;" }

  lemma ReadStop(s: Line, p: int, c: Simple)
    requires 0 <= p <= |s| && Stops(Lex(s, p))
    ensures var r := ReadOn(s, p, c); r.Ok? && r.value == c && Lex(s, r.pos) == Lex(s, p)
  {
    hide Lex, GetToken, Peek, SkipSpace, WordEnd, ParseRedirs;
    NoRedirs(s, p);
    assert c.redirs + [] == c.redirs;
    var q := SkipSpace(s, p);
    LexFirst(s, q, "|)&;");
    LexGood(s, p);
    SkipTwice(s, q);
    if Lex(s, p) == [] {
      EndOfLine(s, q);
    } else {
      FirstIs(Lex(s, p));
    }
  }

  lemma EndOfLine(s: Line, p: int)
    requires 0 <= p <= |s| && Lex(s, p) == []
    ensures var t := GetToken(s, p); t.kind == '\0' && t.next == |s| && Lex(s, |s|) == []
  {
  }

  lemma ReadWord(s: Line, p: int, c: Simple)
    requires 0 <= p <= |s| && Lex(s, p) != [] && Lex(s, p)[0].kind == 'a'
    ensures var t := GetToken(s, p);
            && Text(Span(t.q, t.eq), s) == Lex(s, p)[0].text && Lex(s, t.next) == Lex(s, p)[1..] && t.next > p
            && ReadOn(s, p, c) == if |c.argv| + 1 >= MAXARGS then Panic
                                  else ReadOn(s, t.next, Simple(c.argv + [Span(t.q, t.eq)], c.redirs))
  {
    hide Lex, Peek, SkipSpace, WordEnd, ParseRedirs;
    NoRedirs(s, p);
    assert c.redirs + [] == c.redirs;
    LexFirst(s, SkipSpace(s, p), "|)&;");
    LexFirst(s, p, "");
    LexGood(s, p);
    FirstIs(Lex(s, p));
  }

  lemma ReadRedir(s: Line, p: int, c: Simple)
    requires 0 <= p <= |s| && Lex(s, p) != [] && IsRedirSym(Lex(s, p)[0])
    ensures var t := GetToken(s, p);
            var w := GetToken(s, t.next);
            && Peek(s, p, "<>") && w.next > p
            && ReadOn(s, p, c) ==
               if w.kind != 'a' then Panic
               else ReadOn(s, w.next, Simple(c.argv, c.redirs + [Redirection(Span(w.q, w.eq), t.kind != '<')]))
  {
    hide Lex, GetToken, Peek, SkipSpace, WordEnd, ParseRedirs;
    LexFirst(s, p, "<>");
    LexGood(s, p);
    FirstIs(Lex(s, p));
    OneRedir(s, p);
    var t := GetToken(s, p);
    var w := GetToken(s, t.next);
    if w.kind == 'a' && ParseRedirs(s, w.next).Ok? {
      var x, v := Redirection(Span(w.q, w.eq), t.kind != '<'), ParseRedirs(s, w.next).value;
      assert c.redirs + ([x] + v) == c.redirs + [x] + v;
    }
  }

  lemma ReadOther(s: Line, p: int, c: Simple)
    requires 0 <= p <= |s| && !Stops(Lex(s, p)) && Lex(s, p)[0].kind != 'a' && !IsRedirSym(Lex(s, p)[0])
    ensures ReadOn(s, p, c).Panic?
  {
    hide Lex, Peek, SkipSpace, WordEnd, ParseRedirs;
    NoRedirs(s, p);
    LexFirst(s, SkipSpace(s, p), "|)&;");
    LexFirst(s, p, "");
    LexGood(s, p);
    FirstIs(Lex(s, p));
  }

  /** From c on, the words and redirections of u are read. */
  ghost predicate Adds(s: Line, c: Simple, u: seq<Lexeme>, d: Simple) {
    && IsSimple(u) && Texts(d.argv, s) == Texts(c.argv, s) + ArgsOf(u)
    && RedirTexts(d.redirs, s) == RedirTexts(c.redirs, s) + RedirsOf(u)
  }

  lemma AddsWord(s: Line, c: Simple, w: Span, u: seq<Lexeme>, d: Simple)
    requires u != [] && u[0].kind == 'a' && u[0].text == Text(w, s)
    requires Adds(s, Simple(c.argv + [w], c.redirs), u[1..], d)
    ensures Adds(s, c, u, d)
  {
    hide Texts, RedirTexts;
    TextsAppend(c.argv, w, s);
    assert Texts(c.argv, s) + [u[0].text] + ArgsOf(u[1..]) == Texts(c.argv, s) + ([u[0].text] + ArgsOf(u[1..]));
  }

  lemma AddsRedir(s: Line, c: Simple, r: Redirection<Span>, u: seq<Lexeme>, d: Simple)
    requires |u| >= 2 && IsRedirSym(u[0]) && u[1].kind == 'a' && RedirText(r, s) == RedirOf(u[0], u[1])
    requires Adds(s, Simple(c.argv, c.redirs + [r]), u[2..], d)
    ensures Adds(s, c, u, d)
  {
    hide Texts, RedirTexts;
    RedirTextsAppend(c.redirs, [r], s);
    RedirTextsCons(r, [], s);
    assert [r] + [] == [r];
    var x := RedirOf(u[0], u[1]);
    assert [x] + RedirTexts([], s) == [x];
    assert RedirTexts(c.redirs, s) + [x] + RedirsOf(u[2..]) == RedirTexts(c.redirs, s) + ([x] + RedirsOf(u[2..]));
  }

  /** parseexec reads a simple command whole. */
  lemma {:induction false} SimpleRead(s: Line, p: int, c: Simple, u: seq<Lexeme>, rest: seq<Lexeme>)
    requires 0 <= p <= |s| && Lex(s, p) == u + rest && IsSimple(u) && Stops(rest)
    requires |c.argv| + |ArgsOf(u)| < MAXARGS
    ensures var r := ReadOn(s, p, c); r.Ok? && Adds(s, c, u, r.value) && Lex(s, r.pos) == rest
    decreases |u|
  {
    hide Lex, GetToken, Peek, ReadOn, Adds, RedirOf, Texts, RedirTexts, Text;
    if u == [] {
      assert u + rest == rest;
      ReadStop(s, p, c);
      AddsNothing(s, c);
    } else if u[0].kind == 'a' {
      ReadWord(s, p, c);
      var t := GetToken(s, p);
      assert (u + rest)[1..] == u[1..] + rest;
      var d := Simple(c.argv + [Span(t.q, t.eq)], c.redirs);
      SimpleRead(s, t.next, d, u[1..], rest);
      AddsWord(s, c, Span(t.q, t.eq), u, ReadOn(s, t.next, d).value);
    } else {
      ReadRedir(s, p, c);
      RedirHead(s, p);
      var t := GetToken(s, p);
      var w := GetToken(s, t.next);
      assert (u + rest)[2..] == u[2..] + rest;
      var r := Redirection(Span(w.q, w.eq), t.kind != '<');
      var d := Simple(c.argv, c.redirs + [r]);
      SimpleRead(s, w.next, d, u[2..], rest);
      AddsRedir(s, c, r, u, ReadOn(s, w.next, d).value);
    }
  }

  lemma AddsNothing(s: Line, c: Simple)
    ensures Adds(s, c, [], c)
  {
  }

  /** What parseexec takes is a simple command. */
  lemma {:induction false} SimpleFound(s: Line, p: int, c: Simple) returns (u: seq<Lexeme>)
    requires 0 <= p <= |s| && ReadOn(s, p, c).Ok? && |c.argv| < MAXARGS
    ensures var r := ReadOn(s, p, c);
            Lex(s, p) == u + Lex(s, r.pos) && Adds(s, c, u, r.value) && |r.value.argv| < MAXARGS
    decreases |s| - p
  {
    hide Lex, GetToken, Peek, ReadOn, Adds, RedirOf, Texts, RedirTexts, Text;
    var ts := Lex(s, p);
    if Stops(ts) {
      ReadStop(s, p, c);
      AddsNothing(s, c);
      u := [];
    } else if ts[0].kind == 'a' {
      ReadWord(s, p, c);
      var t := GetToken(s, p);
      var d := Simple(c.argv + [Span(t.q, t.eq)], c.redirs);
      var v := SimpleFound(s, t.next, d);
      u := [ts[0]] + v;
      assert u[1..] == v && ts == [ts[0]] + ts[1..];
      AddsWord(s, c, Span(t.q, t.eq), u, ReadOn(s, t.next, d).value);
    } else if IsRedirSym(ts[0]) {
      ReadRedir(s, p, c);
      RedirHead(s, p);
      var t := GetToken(s, p);
      var w := GetToken(s, t.next);
      var r := Redirection(Span(w.q, w.eq), t.kind != '<');
      var d := Simple(c.argv, c.redirs + [r]);
      var v := SimpleFound(s, w.next, d);
      u := [ts[0], ts[1]] + v;
      assert u[2..] == v && ts == [ts[0], ts[1]] + ts[2..];
      AddsRedir(s, c, r, u, ReadOn(s, w.next, d).value);
    } else {
      ReadOther(s, p, c);
    }
  }

  // ------------------------------------------------------------- every reading is parsed

  /** A parse built the tree c and stopped in front of `rest`. */
  ghost predicate Reads(s: Line, p: int, r: Parsed<Cmd<Span>>, c: Cmd<string>, rest: seq<Lexeme>) {
    r.Ok? && 0 <= p <= r.pos <= |s| && TreeText(r.value, s) == c && Lex(s, r.pos) == rest
  }

  /** What may follow: `rest` is empty, or its first token is one of these. */
  ghost predicate Follows(rest: seq<Lexeme>, kinds: string) { rest == [] || rest[0].kind in kinds }

  /** peek and gettoken at a symbol. */
  lemma AtSymbol(s: Line, p: int, c: char, rest: seq<Lexeme>)
    requires 0 <= p <= |s| && Lex(s, p) == rest && c in "|)&;("
    ensures Peek(s, p, [c]) <==> rest != [] && rest[0].kind == c
    ensures rest != [] ==> Lex(s, GetToken(s, p).next) == rest[1..] && GetToken(s, p).next > p
    ensures Lex(s, SkipSpace(s, p)) == rest
  {
    hide Lex, GetToken, Peek, SkipSpace, WordEnd, GoodToken;
    LexFirst(s, p, [c]);
    LexGood(s, p);
    SkipTwice(s, p);
    if rest != [] {
      FirstIs(rest);
    }
  }

  lemma ExecIs(s: Line, p: int)
    requires 0 <= p <= |s|
    ensures ParseExec(s, p) ==
              if Peek(s, p, "(") then ParseBlock(s, p)
              else
                var c := ReadOn(s, p, Simple([], []));
                if c.Panic? then Panic else Ok(Wrap(Exec(c.value.argv), c.value.redirs), c.pos)
  {
    hide Peek, SkipSpace, WordEnd, GetToken, ParseBlock, ParseRedirs, ParseArgs, Wrap;
    if ParseRedirs(s, p).Ok? {
      assert [] + ParseRedirs(s, p).value == ParseRedirs(s, p).value;
    }
  }

  lemma TreeOfSimple(s: Line, u: seq<Lexeme>, d: Simple)
    requires Adds(s, Simple([], []), u, d)
    ensures Texts(d.argv, s) == ArgsOf(u)
    ensures Redirected(TreeText(Wrap(Exec(d.argv), d.redirs), s), Exec(ArgsOf(u)), RedirsOf(u))
  {
    hide ArgsOf, RedirsOf, Redirected, Wrap;
    WrapText(Exec(d.argv), d.redirs, s);
    assert [] + ArgsOf(u) == ArgsOf(u) && [] + RedirsOf(u) == RedirsOf(u);
  }

  lemma SimpleCmdRead(s: Line, p: int, u: seq<Lexeme>, c: Cmd<string>, rest: seq<Lexeme>)
    requires 0 <= p <= |s| && Lex(s, p) == u + rest && Stops(rest)
    requires IsSimple(u) && |ArgsOf(u)| < MAXARGS && Redirected(c, Exec(ArgsOf(u)), RedirsOf(u))
    ensures Reads(s, p, ParseExec(s, p), c, rest)
  {
    hide Lex, GetToken, Peek, ReadOn, Adds, Texts, RedirTexts, Text, ParseExec, ArgsOf, RedirsOf, Redirected, Wrap;
    AtSymbol(s, p, '(', u + rest);
    ExecIs(s, p);
    SimpleRead(s, p, Simple([], []), u, rest);
    var d := ReadOn(s, p, Simple([], []));
    TreeOfSimple(s, u, d.value);
    RedirectedOnce(c, TreeText(Wrap(Exec(d.value.argv), d.value.redirs), s), Exec(ArgsOf(u)), RedirsOf(u));
  }

  /** parseblock, once the line inside the parentheses has been read. */
  lemma BlockEnd(s: Line, p: int, core: Cmd<string>, x: Lexeme, u: seq<Lexeme>, c: Cmd<string>, rest: seq<Lexeme>)
    requires 0 <= p <= |s| && Peek(s, p, "(") && x.kind == ')' && IsRedirs(u) && Redirected(c, core, RedirsOf(u))
    requires var t := GetToken(s, p); Reads(s, t.next, ParseLine(s, t.next), core, [x] + (u + rest))
    requires Stops(rest)
    ensures Reads(s, p, ParseExec(s, p), c, rest)
  {
    hide Lex, GetToken, Peek, SkipSpace, WordEnd, ParseRedirs, ParseLine, IsSimple, ArgsOf, RedirsOf, Redirected, Wrap;
    var l := ParseLine(s, GetToken(s, p).next);
    AtSymbol(s, l.pos, ')', [x] + (u + rest));
    assert ([x] + (u + rest))[1..] == u + rest;
    var q := GetToken(s, l.pos).next;
    RedirsRead(s, q, u, rest);
    var v := ParseRedirs(s, q).value;
    WrapText(l.value, v, s);
    RedirectedOnce(c, TreeText(Wrap(l.value, v), s), core, RedirsOf(u));
  }

  lemma {:induction false} BlockRead(s: Line, p: int, u: seq<Lexeme>, c: Cmd<string>, k: int, core: Cmd<string>,
                                     rest: seq<Lexeme>)
    requires 0 <= p <= |s| && Lex(s, p) == u + rest && Stops(rest) && IsBlock(u, c, k, core)
    ensures Reads(s, p, ParseExec(s, p), c, rest)
    decreases |u|, 0
  {
    hide Lex, GetToken, Peek, SkipSpace, ParseExec, IsRedirs, RedirsOf, Redirected, IsLine, ParseLine;
    AtSymbol(s, p, '(', u + rest);
    var tail := u[k + 1..] + rest;
    assert (u + rest)[1..] == u[1..k] + ([u[k]] + tail);
    LineRead(s, GetToken(s, p).next, u[1..k], core, [u[k]] + tail);
    BlockEnd(s, p, core, u[k], u[k + 1..], c, rest);
  }

  lemma {:induction false} ExecRead(s: Line, p: int, u: seq<Lexeme>, c: Cmd<string>, rest: seq<Lexeme>)
    requires 0 <= p <= |s| && Lex(s, p) == u + rest && Stops(rest) && IsExec(u, c)
    ensures Reads(s, p, ParseExec(s, p), c, rest)
    decreases |u|, 1
  {
    if k, core :| IsBlock(u, c, k, core) {
      BlockRead(s, p, u, c, k, core, rest);
    } else {
      SimpleCmdRead(s, p, u, c, rest);
    }
  }

  lemma {:induction false} PipeRead(s: Line, p: int, u: seq<Lexeme>, c: Cmd<string>, rest: seq<Lexeme>)
    requires 0 <= p <= |s| && Lex(s, p) == u + rest && Follows(rest, ")&;") && IsPipe(u, c)
    ensures Reads(s, p, ParsePipe(s, p), c, rest)
    decreases |u|, 2
  {
    hide Lex, GetToken, Peek, SkipSpace, ParseExec, IsExec;
    if IsExec(u, c) {
      ExecRead(s, p, u, c, rest);
      AtSymbol(s, ParseExec(s, p).pos, '|', rest);
    } else {
      var k :| PipeAt(u, c.left, c.right, k);
      var more := u[k + 1..] + rest;
      assert u + rest == u[..k] + ([u[k]] + more);
      ExecRead(s, p, u[..k], c.left, [u[k]] + more);
      var e := ParseExec(s, p);
      AtSymbol(s, e.pos, '|', [u[k]] + more);
      assert ([u[k]] + more)[1..] == more;
      PipeRead(s, GetToken(s, e.pos).next, u[k + 1..], c.right, rest);
    }
  }

  /** parseline up to q: parsepipe has been called, and the loop over & has got to the tree v. */
  ghost predicate Looped(s: Line, p: int, q: int, v: Cmd<Span>)
    requires 0 <= p <= |s|
  {
    && ParsePipe(s, p).Ok? && p <= q <= |s|
    && ParseBacks(s, ParsePipe(s, p).pos, ParsePipe(s, p).value) == ParseBacks(s, q, v)
  }

  lemma {:induction false} JobRead(s: Line, p: int, u: seq<Lexeme>, c: Cmd<string>, rest: seq<Lexeme>)
    returns (q: int, v: Cmd<Span>)
    requires 0 <= p <= |s| && Lex(s, p) == u + rest && Follows(rest, ")&;") && IsJob(u, c)
    ensures Looped(s, p, q, v) && TreeText(v, s) == c && Lex(s, q) == rest
    decreases |u|, 3
  {
    hide Lex, GetToken, Peek, SkipSpace, ParsePipe, IsPipe;
    if IsPipe(u, c) {
      PipeRead(s, p, u, c, rest);
      q, v := ParsePipe(s, p).pos, ParsePipe(s, p).value;
    } else {
      var n := |u| - 1;
      assert u + rest == u[..n] + ([u[n]] + rest);
      q, v := JobRead(s, p, u[..n], c.job, [u[n]] + rest);
      AtSymbol(s, q, '&', [u[n]] + rest);
      assert ([u[n]] + rest)[1..] == rest;
      q, v := GetToken(s, q).next, Back(v);
    }
  }

  lemma {:induction false} LineRead(s: Line, p: int, u: seq<Lexeme>, c: Cmd<string>, rest: seq<Lexeme>)
    requires 0 <= p <= |s| && Lex(s, p) == u + rest && Follows(rest, ")") && IsLine(u, c)
    ensures Reads(s, p, ParseLine(s, p), c, rest)
    decreases |u|, 4
  {
    hide Lex, GetToken, Peek, SkipSpace, ParsePipe, IsJob;
    if IsJob(u, c) {
      var q, v := JobRead(s, p, u, c, rest);
      AtSymbol(s, q, '&', rest);
      AtSymbol(s, SkipSpace(s, q), ';', rest);
    } else {
      var k :| ListAt(u, c.first, c.rest, k);
      var more := u[k + 1..] + rest;
      assert u + rest == u[..k] + ([u[k]] + more);
      var q, v := JobRead(s, p, u[..k], c.first, [u[k]] + more);
      AtSymbol(s, q, '&', [u[k]] + more);
      var b := SkipSpace(s, q);
      AtSymbol(s, b, ';', [u[k]] + more);
      assert ([u[k]] + more)[1..] == more;
      LineRead(s, GetToken(s, b).next, u[k + 1..], c.rest, rest);
    }
  }

  // ------------------------------------------------------------ every parse is a reading

  /** The tokens that a parse took are u. */
  ghost predicate Took(s: Line, p: int, u: seq<Lexeme>, q: int) {
    0 <= p <= q <= |s| && Lex(s, p) == u + Lex(s, q)
  }

  /** Tokens around a symbol. */
  lemma Joined(a: seq<Lexeme>, x: Lexeme, b: seq<Lexeme>, ts: seq<Lexeme>, rest: seq<Lexeme>)
    requires ts != [] && ts[0] == x && ts[1..] == b + rest
    ensures var u := a + ([x] + b); u[..|a|] == a && u[|a|] == x && u[|a| + 1..] == b && a + ts == u + rest
  {
    assert ts == [x] + (b + rest);
  }

  lemma Enclosed(x: Lexeme, u: seq<Lexeme>, k: int, ts: seq<Lexeme>, rest: seq<Lexeme>)
    requires ts != [] && ts[0] == x && ts[1..] == u + rest && 0 <= k < |u|
    ensures var v := [x] + u; v[1..k + 1] == u[..k] && v[k + 1] == u[k] && v[k + 2..] == u[k + 1..] && ts == v + rest
  {
    assert ts == [x] + (u + rest);
  }

  lemma {:induction false} BlockFound(s: Line, p: int) returns (u: seq<Lexeme>)
    requires 0 <= p <= |s| && Peek(s, p, "(") && ParseBlock(s, p).Ok?
    ensures var r := ParseBlock(s, p); Took(s, p, u, r.pos) && IsExec(u, TreeText(r.value, s))
    decreases |s| - p, 1
  {
    hide Lex, GetToken, Peek, SkipSpace, ParseRedirs, ParseLine, IsRedirs, RedirsOf, Redirected, IsLine, Wrap;
    var ts := Lex(s, p);
    AtSymbol(s, p, '(', ts);
    var t := GetToken(s, p);
    var l := ParseLine(s, t.next);
    var a := LineFound(s, t.next);
    var us := Lex(s, l.pos);
    AtSymbol(s, l.pos, ')', us);
    var b := RedirsFound(s, GetToken(s, l.pos).next);
    var v := ParseRedirs(s, GetToken(s, l.pos).next);
    var rest := Lex(s, v.pos);
    Joined(a, us[0], b, us, rest);
    u := a + ([us[0]] + b);
    Enclosed(ts[0], u, |a|, ts, rest);
    u := [ts[0]] + u;
    WrapText(l.value, v.value, s);
    assert IsBlock(u, TreeText(Wrap(l.value, v.value), s), |a| + 1, TreeText(l.value, s));
  }

  lemma {:induction false} ExecFound(s: Line, p: int) returns (u: seq<Lexeme>)
    requires 0 <= p <= |s| && ParseExec(s, p).Ok?
    ensures var r := ParseExec(s, p); Took(s, p, u, r.pos) && IsExec(u, TreeText(r.value, s))
    decreases |s| - p, 2
  {
    hide Lex, GetToken, Peek, ReadOn, ParseExec, ParseBlock, ArgsOf, RedirsOf, Redirected, Wrap;
    ExecIs(s, p);
    if Peek(s, p, "(") {
      u := BlockFound(s, p);
    } else {
      u := SimpleFound(s, p, Simple([], []));
      TreeOfSimple(s, u, ReadOn(s, p, Simple([], [])).value);
    }
  }

  lemma {:induction false} PipeFound(s: Line, p: int) returns (u: seq<Lexeme>)
    requires 0 <= p <= |s| && ParsePipe(s, p).Ok?
    ensures var r := ParsePipe(s, p); Took(s, p, u, r.pos) && IsPipe(u, TreeText(r.value, s))
    decreases |s| - p, 3
  {
    hide Lex, GetToken, Peek, SkipSpace, ParseExec, IsExec;
    u := ExecFound(s, p);
    var e := ParseExec(s, p);
    var ts := Lex(s, e.pos);
    AtSymbol(s, e.pos, '|', ts);
    if Peek(s, e.pos, "|") {
      var q := GetToken(s, e.pos).next;
      var a := u;
      var b := PipeFound(s, q);
      u := a + ([ts[0]] + b);
      var d := ParsePipe(s, q);
      Joined(a, ts[0], b, ts, Lex(s, d.pos));
      assert PipeAt(u, TreeText(e.value, s), TreeText(d.value, s), |a|);
    }
  }

  lemma {:induction false} BacksFound(s: Line, p: int, q: int, v: Cmd<Span>, a: seq<Lexeme>) returns (u: seq<Lexeme>)
    requires Took(s, p, a, q) && IsJob(a, TreeText(v, s))
    ensures var r := ParseBacks(s, q, v); Took(s, p, u, r.pos) && IsJob(u, TreeText(r.value, s))
    decreases |s| - q
  {
    hide Lex, GetToken, Peek, SkipSpace, IsPipe;
    var ts := Lex(s, q);
    AtSymbol(s, q, '&', ts);
    u := a;
    if Peek(s, q, "&") {
      u := a + [ts[0]];
      assert u[..|u| - 1] == a && ts == [ts[0]] + ts[1..];
      assert a + ([ts[0]] + ts[1..]) == u + ts[1..];
      u := BacksFound(s, p, GetToken(s, q).next, Back(v), u);
    }
  }

  lemma {:induction false} LineFound(s: Line, p: int) returns (u: seq<Lexeme>)
    requires 0 <= p <= |s| && ParseLine(s, p).Ok?
    ensures var r := ParseLine(s, p); Took(s, p, u, r.pos) && IsLine(u, TreeText(r.value, s))
    decreases |s| - p, 4
  {
    hide Lex, GetToken, Peek, SkipSpace, ParsePipe, ParseBacks, IsPipe, IsJob;
    u := PipeFound(s, p);
    var c := ParsePipe(s, p);
    PipeIsJob(u, TreeText(c.value, s));
    u := BacksFound(s, p, c.pos, c.value, u);
    var b := ParseBacks(s, c.pos, c.value);
    var ts := Lex(s, b.pos);
    AtSymbol(s, b.pos, ';', ts);
    if Peek(s, b.pos, ";") {
      var q := GetToken(s, b.pos).next;
      var a := u;
      var more := LineFound(s, q);
      u := a + ([ts[0]] + more);
      var d := ParseLine(s, q);
      Joined(a, ts[0], more, ts, Lex(s, d.pos));
      assert ListAt(u, TreeText(b.value, s), TreeText(d.value, s), |a|);
    }
  }

  lemma PipeIsJob(u: seq<Lexeme>, c: Cmd<string>)
    requires IsPipe(u, c)
    ensures IsJob(u, c)
  {
  }

  // -------------------------------------------------------------------------- the theorem

  lemma AtTheEnd(s: Line, p: int)
    requires 0 <= p <= |s|
    ensures SkipSpace(s, p) == |s| <==> Lex(s, p) == []
  {
    LexFirst(s, p, "");
    assert GetToken(s, p).q == SkipSpace(s, p);
  }

  /** A line parses to a tree exactly if the grammar reads its tokens as that tree. */
  lemma ParsesExactly(s: Line, ts: seq<Lexeme>, c: Cmd<string>)
    requires Spells(s, 0, ts)
    ensures IsLine(ts, c) <==> ParseCmd(s).Ok? && TreeText(ParseCmd(s).value, s) == c
  {
    hide Lex, ParseLine, SkipSpace, GetToken, IsLine;
    LexExactly(s, 0, ts);
    var r := ParseLine(s, 0);
    if IsLine(ts, c) {
      assert ts + [] == ts;
      LineRead(s, 0, ts, c, []);
      AtTheEnd(s, r.pos);
    }
    if ParseCmd(s).Ok? {
      var u := LineFound(s, 0);
      AtTheEnd(s, r.pos);
      assert u + [] == u;
    }
  }

  ghost predicate InGrammar(ts: seq<Lexeme>) { exists c :: IsLine(ts, c) }

  /** It panics exactly if the grammar does not read them at all. */
  lemma PanicsExactly(s: Line, ts: seq<Lexeme>)
    requires Spells(s, 0, ts)
    ensures ParseCmd(s).Panic? <==> !InGrammar(ts)
  {
    hide IsLine, ParseCmd;
    forall c
      ensures IsLine(ts, c) <==> ParseCmd(s).Ok? && TreeText(ParseCmd(s).value, s) == c
    {
      ParsesExactly(s, ts, c);
    }
    if ParseCmd(s).Ok? {
      assert IsLine(ts, TreeText(ParseCmd(s).value, s));
    }
  }
}
