/**
  The shell's parser as it runs (sh.c): loops over a position that only moves forward, and
  nulterminate, which writes into the line.
 */
module ShellParser {
  import opened ShellSyntax
  import opened ShellTokens
  import opened ShellGrammar
  import opened ShellRoundTrip

  // ------------------------------------------------- what the parser builds

  /** A whole word of the line: it stops where the word stops. */
  ghost predicate WordSpan(s: Line, w: Span) {
    && 0 <= w.q < w.eq <= |s|
    && (forall i :: w.q <= i < w.eq ==> IsWordChar(s[i]))
    && (w.eq < |s| ==> !IsWordChar(s[w.eq]))
  }

  ghost predicate Built(s: Line, c: Cmd<Span>) {
    match c
    case Exec(argv) => |argv| < MAXARGS && forall i :: 0 <= i < |argv| ==> WordSpan(s, argv[i])
    case Redir(x, file, _) => Built(s, x) && WordSpan(s, file)
    case Pipe(l, r) => Built(s, l) && Built(s, r)
    case List(l, r) => Built(s, l) && Built(s, r)
    case Back(x) => Built(s, x)
  }

  ghost predicate FilesBuilt(s: Line, rs: seq<Redirection<Span>>) {
    forall i :: 0 <= i < |rs| ==> WordSpan(s, rs[i].file)
  }

  lemma {:induction false} WrapBuilt(s: Line, c: Cmd<Span>, rs: seq<Redirection<Span>>)
    requires Built(s, c) && FilesBuilt(s, rs)
    ensures Built(s, Wrap(c, rs))
  {
    if rs != [] {
      WrapBuilt(s, c, rs[..|rs| - 1]);
    }
  }

  lemma {:induction false} RedirsBuilt(s: Line, p: int)
    requires 0 <= p <= |s|
    ensures ParseRedirs(s, p).Ok? ==> FilesBuilt(s, ParseRedirs(s, p).value)
    decreases |s| - p
  {
    if Peek(s, p, "<>") {
      RedirsBuilt(s, GetToken(s, GetToken(s, p).next).next);
    }
  }

  lemma {:induction false} ArgsBuilt(s: Line, p: int, c: Simple)
    requires 0 <= p <= |s| && Built(s, Exec(c.argv)) && FilesBuilt(s, c.redirs)
    ensures var r := ParseArgs(s, p, c); r.Ok? ==> Built(s, Exec(r.value.argv)) && FilesBuilt(s, r.value.redirs)
    decreases |s| - p
  {
    var t := GetToken(s, p);
    if !Peek(s, p, "|)&;") && t.kind == 'a' && |c.argv| + 1 < MAXARGS {
      var argv := c.argv + [Span(t.q, t.eq)];
      RedirsBuilt(s, t.next);
      var rs := ParseRedirs(s, t.next);
      if rs.Ok? {
        ArgsBuilt(s, rs.pos, Simple(argv, c.redirs + rs.value));
      }
    }
  }

  lemma {:induction false} ExecBuilt(s: Line, p: int)
    requires 0 <= p <= |s|
    ensures ParseExec(s, p).Ok? ==> Built(s, ParseExec(s, p).value)
    decreases |s| - p, 2
  {
    if Peek(s, p, "(") {
      BlockBuilt(s, p);
    } else {
      RedirsBuilt(s, p);
      var rs := ParseRedirs(s, p);
      if rs.Ok? {
        ArgsBuilt(s, rs.pos, Simple([], rs.value));
        var c := ParseArgs(s, rs.pos, Simple([], rs.value));
        if c.Ok? {
          WrapBuilt(s, Exec(c.value.argv), c.value.redirs);
        }
      }
    }
  }

  lemma {:induction false} BlockBuilt(s: Line, p: int)
    requires 0 <= p <= |s|
    ensures ParseBlock(s, p).Ok? ==> Built(s, ParseBlock(s, p).value)
    decreases |s| - p, 1
  {
    if Peek(s, p, "(") {
      LineBuilt(s, GetToken(s, p).next);
      var c := ParseLine(s, GetToken(s, p).next);
      if c.Ok? && Peek(s, c.pos, ")") {
        RedirsBuilt(s, GetToken(s, c.pos).next);
        var rs := ParseRedirs(s, GetToken(s, c.pos).next);
        if rs.Ok? {
          WrapBuilt(s, c.value, rs.value);
        }
      }
    }
  }

  lemma {:induction false} PipeBuilt(s: Line, p: int)
    requires 0 <= p <= |s|
    ensures ParsePipe(s, p).Ok? ==> Built(s, ParsePipe(s, p).value)
    decreases |s| - p, 3
  {
    ExecBuilt(s, p);
    var c := ParseExec(s, p);
    if c.Ok? && Peek(s, c.pos, "|") {
      PipeBuilt(s, GetToken(s, c.pos).next);
    }
  }

  lemma {:induction false} BacksBuilt(s: Line, p: int, c: Cmd<Span>)
    requires 0 <= p <= |s| && Built(s, c)
    ensures Built(s, ParseBacks(s, p, c).value)
    decreases |s| - p
  {
    if Peek(s, p, "&") {
      BacksBuilt(s, GetToken(s, p).next, Back(c));
    }
  }

  lemma {:induction false} LineBuilt(s: Line, p: int)
    requires 0 <= p <= |s|
    ensures ParseLine(s, p).Ok? ==> Built(s, ParseLine(s, p).value)
    decreases |s| - p, 4
  {
    PipeBuilt(s, p);
    var c := ParsePipe(s, p);
    if c.Ok? {
      BacksBuilt(s, c.pos, c.value);
      var b := ParseBacks(s, c.pos, c.value);
      if Peek(s, b.pos, ";") {
        LineBuilt(s, GetToken(s, b.pos).next);
      }
    }
  }

  lemma {:induction false} BuiltGood(s: Line, c: Cmd<Span>)
    requires Built(s, c)
    ensures Good(TreeText(c, s))
  {
    match c
    case Exec(argv) =>
      forall i | 0 <= i < |argv|
        ensures GoodWord(Text(argv[i], s))
      {
        assert WordSpan(s, argv[i]);
      }
    case Redir(x, file, _) => BuiltGood(s, x);
    case Pipe(l, r) => BuiltGood(s, l); BuiltGood(s, r);
    case List(l, r) => BuiltGood(s, l); BuiltGood(s, r);
    case Back(x) => BuiltGood(s, x);
  }

  /** Whatever line it is given, the parser builds a tree that printing and parsing keep. */
  lemma ParsePrintParse(s: Line, f: Style, t: Line)
    requires ParseCmd(s).Ok? && Spells(t, 0, LineToks(TreeText(ParseCmd(s).value, s), f))
    ensures ParseCmd(t).Ok? && TreeText(ParseCmd(t).value, t) == TreeText(ParseCmd(s).value, s)
    ensures Good(TreeText(ParseCmd(s).value, s))
  {
    LineBuilt(s, 0);
    BuiltGood(s, ParseCmd(s).value);
    hide ParseCmd, LineToks, TreeText, Spells;
    PrintParse(TreeText(ParseCmd(s).value, s), f, t);
  }

  // -------------------------------------------------------------- the words of a tree

  ghost function Spans(ws: seq<Span>): set<Span> { set w | w in ws }

  ghost function WordsOf(c: Cmd<Span>): set<Span> {
    match c
    case Exec(argv) => Spans(argv)
    case Redir(x, file, _) => WordsOf(x) + {file}
    case Pipe(l, r) => WordsOf(l) + WordsOf(r)
    case List(l, r) => WordsOf(l) + WordsOf(r)
    case Back(x) => WordsOf(x)
  }

  lemma {:induction false} BuiltWords(s: Line, c: Cmd<Span>)
    requires Built(s, c)
    ensures forall w :: w in WordsOf(c) ==> WordSpan(s, w)
  {
    match c
    case Exec(argv) =>
    case Redir(x, file, _) => BuiltWords(s, x);
    case Pipe(l, r) => BuiltWords(s, l); BuiltWords(s, r);
    case List(l, r) => BuiltWords(s, l); BuiltWords(s, r);
    case Back(x) => BuiltWords(s, x);
  }

  /** The buffer with a NUL at the end of each of the words. */
  ghost predicate Terminated(before: seq<char>, ws: set<Span>, after: seq<char>) {
    && |after| == |before|
    && (forall w :: w in ws && 0 <= w.eq < |after| ==> after[w.eq] == '\0')
    && (forall i :: 0 <= i < |after| && after[i] != before[i] ==> after[i] == '\0' && exists w :: w in ws && w.eq == i)
  }

  lemma TerminatedTwice(a: seq<char>, ws: set<Span>, b: seq<char>, vs: set<Span>, c: seq<char>)
    requires Terminated(a, ws, b) && Terminated(b, vs, c)
    ensures Terminated(a, ws + vs, c)
  {
  }

  /** The string a pointer to q denotes: the characters up to the first NUL. */
  ghost function Denotes(b: seq<char>, q: int): string
    requires 0 <= q <= |b|
    decreases |b| - q
  {
    if q == |b| || b[q] == '\0' then "" else [b[q]] + Denotes(b, q + 1)
  }

  lemma {:induction false} DenotesIs(b: seq<char>, q: int, e: int)
    requires 0 <= q <= e < |b| && b[e] == '\0' && forall i :: q <= i < e ==> b[i] != '\0'
    ensures Denotes(b, q) == b[q..e]
    decreases e - q
  {
    if q < e {
      DenotesIs(b, q + 1, e);
      assert b[q..e] == [b[q]] + b[q + 1..e];
    }
  }

  /** The words of a parsed line are apart from each other's ends, so the NULs cut each word out whole. */
  lemma WordsCutOut(s: Line, ws: set<Span>, after: seq<char>, w: Span)
    requires forall v :: v in ws ==> WordSpan(s, v)
    requires Terminated(s + ['\0'], ws, after) && w in ws
    ensures 0 <= w.q < |after| && Denotes(after, w.q) == Text(w, s)
  {
    assert WordSpan(s, w);
    forall i | w.q <= i < w.eq
      ensures after[i] == s[i] && after[i] != '\0'
    {
      assert IsWordChar(s[i]) && (s + ['\0'])[i] == s[i];
      assert forall v :: v in ws && v.eq == i ==> WordSpan(s, v);
    }
    assert after[w.eq] == '\0';
    DenotesIs(after, w.q, w.eq);
    assert after[w.q..w.eq] == s[w.q..w.eq];
  }

  // ---------------------------------------------------------------- the running parser

  /** The parser's view of the line: the text is fixed, *ps moves. */
  class Parser {
    const s: Line
    var pos: int

    ghost predicate Valid()
      reads this
    {
      0 <= pos <= |s|
    }

    constructor (line: Line)
      ensures Valid() && s == line && pos == 0
    {
      s := line;
      pos := 0;
    }

    method SkipBlanks()
      requires Valid()
      modifies `pos
      ensures Valid() && pos == SkipSpace(s, old(pos))
    {
      while pos < |s| && IsSpace(s[pos])
        invariant Valid() && SkipSpace(s, pos) == SkipSpace(s, old(pos))
      {
        pos := pos + 1;
      }
    }

    method SkipWord()
      requires Valid()
      modifies `pos
      ensures Valid() && pos == WordEnd(s, old(pos))
    {
      while pos < |s| && !IsSpace(s[pos]) && !IsSymbol(s[pos])
        invariant Valid() && WordEnd(s, pos) == WordEnd(s, old(pos))
      {
        pos := pos + 1;
      }
    }

    /** gettoken: blanks, the token, blanks. */
    method NextToken() returns (kind: char, w: Span)
      requires Valid()
      modifies `pos
      ensures Valid()
      ensures var t := GetToken(s, old(pos)); kind == t.kind && w == Span(t.q, t.eq) && pos == t.next
      ensures old(pos) <= w.q <= w.eq <= pos && Blank(s, old(pos), w.q) && Blank(s, w.eq, pos)
      ensures pos < |s| ==> !IsSpace(s[pos])
      ensures w.q == |s| ==> kind == '\0' && w.eq == w.q
      ensures w.q < |s| ==>
                && !IsSpace(s[w.q])
                && if s[w.q] == '>' && w.q + 1 < |s| && s[w.q + 1] == '>' then kind == '+' && w.eq == w.q + 2
                   else if s[w.q] in "<|>&;()" then kind == s[w.q] && w.eq == w.q + 1
                   else kind == 'a' && WordSpan(s, w)
    {
      hide SkipSpace, WordEnd, Blank, WordSpan;
      TokenText(s, pos);
      SkipBlanks();
      var q := pos;
      if pos == |s| {
        kind := '\0';
      } else if s[pos] == '>' {
        kind, pos := '>', pos + 1;
        if pos < |s| && s[pos] == '>' {
          kind, pos := '+', pos + 1;
        }
      } else if IsSymbol(s[pos]) {
        kind, pos := s[pos], pos + 1;
      } else {
        kind := 'a';
        SkipWord();
      }
      w := Span(q, pos);
      SkipBlanks();
    }

    method Looking(toks: string) returns (yes: bool)
      requires Valid()
      modifies `pos
      ensures Valid() && pos == SkipSpace(s, old(pos))
      ensures yes == Peek(s, old(pos), toks)
      ensures old(pos) <= pos && Blank(s, old(pos), pos) && (pos < |s| ==> !IsSpace(s[pos]))
      ensures yes <==> pos < |s| && s[pos] in toks
    {
      SkipBlanks();
      yes := pos < |s| && s[pos] in toks;
    }

    /** The method and the function agree: both panic, or they stop at the same place with the same result. */
    ghost predicate Agrees<T>(ok: bool, value: T, r: Parsed<T>)
      reads this
    {
      ok == r.Ok? && (ok ==> value == r.value && pos == r.pos)
    }

    method Redirs() returns (ok: bool, rs: seq<Redirection<Span>>)
      requires Valid()
      modifies `pos
      ensures Valid() && Agrees(ok, rs, ParseRedirs(s, old(pos)))
    {
      hide ParseRedirs, SkipSpace, GetToken, Peek;
      rs := [];
      RedirsLeft(s, pos);
      var more := Looking("<>");
      while more
        invariant Valid() && more == Peek(s, pos, "<>")
        invariant Left(s, pos, rs, ParseRedirs(s, old(pos)))
        decreases |s| - pos
      {
        RedirTurn(s, pos, rs, ParseRedirs(s, old(pos)));
        var kind, _ := NextToken();
        var word, w := NextToken();
        if word != 'a' {
          return false, rs;
        }
        rs := rs + [Redirection(w, kind != '<')];
        more := Looking("<>");
      }
      RedirsDone(s, pos, rs, ParseRedirs(s, old(pos)));
      ok := true;
    }

    method Exec() returns (ok: bool, c: Cmd<Span>)
      requires Valid()
      modifies `pos
      ensures Valid() && Agrees(ok, c, ParseExec(s, old(pos)))
      decreases |s| - pos, 2
    {
      hide SkipSpace, WordEnd, GetToken, ParseRedirs, ParseBlock, Peek, Wrap, Blank, WordSpan, IsSpace;
      LookAgain(s, pos);
      BlockAgain(s, pos);
      var block := Looking("(");
      if block {
        ok, c := Block();
        return;
      }
      var redirs;
      ok, redirs := Redirs();
      c := ShellSyntax.Exec([]);
      if !ok {
        return;
      }
      var argv: seq<Span> := [];
      ghost var all := ParseArgs(s, pos, Simple(argv, redirs));
      ArgsAgain(s, pos, Simple(argv, redirs));
      var done := Looking("|)&;");
      while !done
        invariant Valid() && SkipSpace(s, pos) == pos && done == Peek(s, pos, "|)&;")
        invariant ParseArgs(s, pos, Simple(argv, redirs)) == all
        decreases |s| - pos
      {
        var kind, w := NextToken();
        if kind == '\0' {
          break;
        }
        if kind != 'a' {
          ok := false;
          return;
        }
        argv := argv + [w];
        if |argv| >= MAXARGS {
          ok := false;
          return;
        }
        var rs;
        ok, rs := Redirs();
        if !ok {
          return;
        }
        redirs := redirs + rs;
        ArgsAgain(s, pos, Simple(argv, redirs));
        done := Looking("|)&;");
      }
      assert all == Ok(Simple(argv, redirs), pos);
      c := Wrap(ShellSyntax.Exec(argv), redirs);
    }

    method Block() returns (ok: bool, c: Cmd<Span>)
      requires Valid()
      modifies `pos
      ensures Valid() && Agrees(ok, c, ParseBlock(s, old(pos)))
      decreases |s| - pos, 1
    {
      hide SkipSpace, WordEnd, GetToken, ParseRedirs, Peek;
      LookAgain(s, pos);
      ok := Looking("(");
      c := ShellSyntax.Exec([]);
      if !ok {
        return;
      }
      var _, _ := NextToken();
      ok, c := Line();
      if !ok {
        return;
      }
      LookAgain(s, pos);
      ok := Looking(")");
      if !ok {
        return;
      }
      var _, _ := NextToken();
      var rs;
      ok, rs := Redirs();
      c := Wrap(c, rs);
    }

    method Pipe() returns (ok: bool, c: Cmd<Span>)
      requires Valid()
      modifies `pos
      ensures Valid() && Agrees(ok, c, ParsePipe(s, old(pos)))
      decreases |s| - pos, 3
    {
      ok, c := Exec();
      if !ok {
        return;
      }
      LookAgain(s, pos);
      var more := Looking("|");
      if more {
        var _, _ := NextToken();
        var d;
        ok, d := Pipe();
        c := ShellSyntax.Pipe(c, d);
      }
    }

    method Line() returns (ok: bool, c: Cmd<Span>)
      requires Valid()
      modifies `pos
      ensures Valid() && Agrees(ok, c, ParseLine(s, old(pos)))
      decreases |s| - pos, 4
    {
      ok, c := Pipe();
      if !ok {
        return;
      }
      ghost var all := ParseBacks(s, pos, c);
      LookAgain(s, pos);
      BacksAgain(s, pos, c);
      var amp := Looking("&");
      while amp
        invariant Valid() && SkipSpace(s, pos) == pos && amp == Peek(s, pos, "&")
        invariant ParseBacks(s, pos, c) == all
        decreases |s| - pos
      {
        var _, _ := NextToken();
        c := Back(c);
        LookAgain(s, pos);
        BacksAgain(s, pos, c);
        amp := Looking("&");
      }
      var more := Looking(";");
      if more {
        var _, _ := NextToken();
        var d;
        ok, d := Line();
        c := List(c, d);
      }
    }
  }

  /** gettoken by the text: what it skips, and kind and extent of what it finds. */
  lemma TokenText(s: Line, p: int)
    requires 0 <= p <= |s|
    ensures var t := GetToken(s, p);
            && Blank(s, p, t.q) && Blank(s, t.eq, t.next) && (t.next < |s| ==> !IsSpace(s[t.next]))
            && if t.q == |s| then t.kind == '\0' && t.eq == t.q
               else
                 && !IsSpace(s[t.q])
                 && if s[t.q] == '>' && t.q + 1 < |s| && s[t.q + 1] == '>' then t.kind == '+' && t.eq == t.q + 2
                    else if s[t.q] in "<|>&;()" then t.kind == s[t.q] && t.eq == t.q + 1
                    else t.kind == 'a' && WordSpan(s, Span(t.q, t.eq))
  {
  }

  /** With rs read so far, what is read from p on makes up `all`. */
  ghost predicate Left(s: Line, p: int, rs: seq<Redirection<Span>>, all: Parsed<seq<Redirection<Span>>>)
    requires 0 <= p <= |s|
  {
    var r := ParseRedirs(s, p);
    SkipSpace(s, p) == p && if r.Panic? then all.Panic? else all == Ok(rs + r.value, r.pos)
  }

  lemma RedirsLeft(s: Line, p: int)
    requires 0 <= p <= |s|
    ensures Left(s, SkipSpace(s, p), [], ParseRedirs(s, p)) && Peek(s, SkipSpace(s, p), "<>") == Peek(s, p, "<>")
  {
    LookAgain(s, p);
    assert ParseRedirs(s, p).Ok? ==> [] + ParseRedirs(s, p).value == ParseRedirs(s, p).value;
  }

  lemma RedirTurn(s: Line, p: int, rs: seq<Redirection<Span>>, all: Parsed<seq<Redirection<Span>>>)
    requires 0 <= p <= |s| && Left(s, p, rs, all) && Peek(s, p, "<>")
    ensures var t := GetToken(s, p);
            var w := GetToken(s, t.next);
            && (if w.kind != 'a' then all.Panic?
                else Left(s, SkipSpace(s, w.next), rs + [Redirection(Span(w.q, w.eq), t.kind != '<')], all))
            && w.next > p && Peek(s, SkipSpace(s, w.next), "<>") == Peek(s, w.next, "<>")
  {
    hide SkipSpace, WordEnd, GetToken, Peek, ParseRedirs;
    OneRedir(s, p);
    var t := GetToken(s, p);
    var w := GetToken(s, t.next);
    LookAgain(s, w.next);
    if w.kind == 'a' && ParseRedirs(s, w.next).Ok? {
      var x := Redirection(Span(w.q, w.eq), t.kind != '<');
      assert rs + ([x] + ParseRedirs(s, w.next).value) == rs + [x] + ParseRedirs(s, w.next).value;
    }
  }

  lemma RedirsDone(s: Line, p: int, rs: seq<Redirection<Span>>, all: Parsed<seq<Redirection<Span>>>)
    requires 0 <= p <= |s| && Left(s, p, rs, all) && !Peek(s, p, "<>")
    ensures all == Ok(rs, p)
  {
    assert rs + [] == rs;
  }

  lemma LookAgain(s: Line, p: int)
    requires 0 <= p <= |s|
    ensures SkipSpace(s, SkipSpace(s, p)) == SkipSpace(s, p)
    ensures GetToken(s, SkipSpace(s, p)) == GetToken(s, p)
    ensures forall toks :: Peek(s, SkipSpace(s, p), toks) == Peek(s, p, toks)
    ensures ParseRedirs(s, SkipSpace(s, p)) == ParseRedirs(s, p)
  {
  }

  lemma ArgsAgain(s: Line, p: int, c: Simple)
    requires 0 <= p <= |s|
    ensures SkipSpace(s, SkipSpace(s, p)) == SkipSpace(s, p)
    ensures Peek(s, SkipSpace(s, p), "|)&;") == Peek(s, p, "|)&;")
    ensures ParseArgs(s, SkipSpace(s, p), c) == ParseArgs(s, p, c)
  {
  }

  lemma BacksAgain(s: Line, p: int, c: Cmd<Span>)
    requires 0 <= p <= |s|
    ensures ParseBacks(s, SkipSpace(s, p), c) == ParseBacks(s, p, c)
  {
    LookAgain(s, p);
  }

  lemma BlockAgain(s: Line, p: int)
    requires 0 <= p <= |s|
    ensures ParseBlock(s, SkipSpace(s, p)) == ParseBlock(s, p)
  {
    LookAgain(s, p);
  }

  /** nulterminate: a NUL over the character behind each word. */
  method NulTerminate(c: Cmd<Span>, b: array<char>)
    requires forall w :: w in WordsOf(c) ==> 0 <= w.eq < b.Length
    modifies b
    ensures Terminated(old(b[..]), WordsOf(c), b[..])
  {
    match c
    case Exec(argv) =>
      var i := 0;
      while i < |argv|
        invariant 0 <= i <= |argv|
        invariant Terminated(old(b[..]), Spans(argv[..i]), b[..])
      {
        ghost var had := b[..];
        assert argv[i] in WordsOf(c);
        b[argv[i].eq] := '\0';
        assert Terminated(had, {argv[i]}, b[..]);
        TerminatedTwice(old(b[..]), Spans(argv[..i]), had, {argv[i]}, b[..]);
        assert Spans(argv[..i]) + {argv[i]} == Spans(argv[..i + 1]);
        i := i + 1;
      }
      assert argv[..i] == argv;
    case Redir(x, file, _) =>
      NulTerminate(x, b);
      ghost var had := b[..];
      b[file.eq] := '\0';
      assert Terminated(had, {file}, b[..]);
      TerminatedTwice(old(b[..]), WordsOf(x), had, {file}, b[..]);
    case Pipe(l, r) =>
      NulTerminate(l, b);
      ghost var had := b[..];
      NulTerminate(r, b);
      TerminatedTwice(old(b[..]), WordsOf(l), had, WordsOf(r), b[..]);
    case List(l, r) =>
      NulTerminate(l, b);
      ghost var had := b[..];
      NulTerminate(r, b);
      TerminatedTwice(old(b[..]), WordsOf(l), had, WordsOf(r), b[..]);
    case Back(x) => NulTerminate(x, b);
  }

  /** parsecmd: the line in b is parsed as ParseCmd says and, unless that panics, every word of the tree it returns is
      then a string of its own in b, exactly the word's text; nothing else in b changes. */
  method ParseCommand(line: Line, b: array<char>) returns (ok: bool, c: Cmd<Span>)
    requires b[..] == line + ['\0']
    modifies b
    ensures ok == ParseCmd(line).Ok? && (ok ==> c == ParseCmd(line).value)
    ensures ok ==> forall w :: w in WordsOf(c) ==> 0 <= w.q < b.Length && Denotes(b[..], w.q) == Text(w, line)
    ensures Terminated(old(b[..]), if ok then WordsOf(c) else {}, b[..])
    ensures forall ts :: Spells(line, 0, ts) ==> (ok <==> InGrammar(ts))
    ensures ok ==> forall ts :: Spells(line, 0, ts) ==> IsLine(ts, TreeText(c, line))
  {
    forall ts | Spells(line, 0, ts)
      ensures ParseCmd(line).Ok? <==> InGrammar(ts)
      ensures ParseCmd(line).Ok? ==> IsLine(ts, TreeText(ParseCmd(line).value, line))
    {
      PanicsExactly(line, ts);
      if ParseCmd(line).Ok? {
        ParsesExactly(line, ts, TreeText(ParseCmd(line).value, line));
      }
    }
    var p := new Parser(line);
    ok, c := p.Line();
    if !ok {
      return;
    }
    var _ := p.Looking("");
    ok := p.pos == |line|;
    if !ok {
      return;
    }
    LineBuilt(line, 0);
    BuiltWords(line, c);
    NulTerminate(c, b);
    forall w | w in WordsOf(c)
      ensures 0 <= w.q < b.Length && Denotes(b[..], w.q) == Text(w, line)
    {
      WordsCutOut(line, WordsOf(c), b[..], w);
    }
  }
}
