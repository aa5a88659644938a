/**
  The shell's command language (sh.c): tokens, command trees, and the parser as functions
  of the command line and a position in it.
 */
module ShellSyntax {
  import opened CStrings

  /** A command line. */
  type Line = CString

  const MAXARGS: int := 10

  predicate IsSpace(c: char) { c == ' ' || c == '\t' || c == '\r' || c == '\n' || c == 11 as char }

  predicate IsSymbol(c: char) { c == '<' || c == '|' || c == '>' || c == '&' || c == ';' || c == '(' || c == ')' }

  predicate IsWordChar(c: char) { c != '\0' && !IsSpace(c) && !IsSymbol(c) }

  // ----------------------------------------------------------------------- tokens

  function SkipSpace(s: Line, p: int): (r: int)
    requires 0 <= p <= |s|
    ensures p <= r <= |s| && (forall i :: p <= i < r ==> IsSpace(s[i])) && (r < |s| ==> !IsSpace(s[r]))
    decreases |s| - p
  {
    if p < |s| && IsSpace(s[p]) then SkipSpace(s, p + 1) else p
  }

  function WordEnd(s: Line, p: int): (r: int)
    requires 0 <= p <= |s|
    ensures p <= r <= |s| && (forall i :: p <= i < r ==> IsWordChar(s[i])) && (r < |s| ==> !IsWordChar(s[r]))
    decreases |s| - p
  {
    if p < |s| && !IsSpace(s[p]) && !IsSymbol(s[p]) then WordEnd(s, p + 1) else p
  }

  /** What gettoken finds: the kind of token ('a' for a word, '+' for >>, NUL at the end), where it starts and ends, and
      where the next one starts. */
  datatype Token = Token(kind: char, q: int, eq: int, next: int)

  function GetToken(s: Line, p: int): (t: Token)
    requires 0 <= p <= |s|
    ensures p <= t.q <= t.eq <= t.next <= |s|
    ensures t.kind == '\0' <==> t.q == |s|
    ensures t.kind != '\0' ==> t.q < t.eq
    ensures t.kind == 'a' <==> t.q < |s| && IsWordChar(s[t.q])
    ensures t.kind == 'a' ==> t.eq == WordEnd(s, t.q)
  {
    var q := SkipSpace(s, p);
    var c := At(s, q);
    var (kind, eq) :=
      if c == '\0' then (c, q)
      else if c == '>' then (if At(s, q + 1) == '>' then ('+', q + 2) else (c, q + 1))
      else if IsSymbol(c) then (c, q + 1)
      else ('a', WordEnd(s, q));
    Token(kind, q, eq, SkipSpace(s, eq))
  }

  /** peek: is the next token's first character among toks? */
  predicate Peek(s: Line, p: int, toks: string)
    requires 0 <= p <= |s|
  {
    At(s, SkipSpace(s, p)) != '\0' && At(s, SkipSpace(s, p)) in toks
  }

  // ------------------------------------------------------------------------ trees

  /** A command, its words of type W.  `out` tells a redirection of standard output (mode O_WRONLY|O_CREATE, fd 1, for
      > and for >> alike) from one of standard input (mode O_RDONLY, fd 0). */
  datatype Cmd<W> =
    | Exec(argv: seq<W>)
    | Redir(cmd: Cmd<W>, file: W, out: bool)
    | Pipe(left: Cmd<W>, right: Cmd<W>)
    | List(first: Cmd<W>, rest: Cmd<W>)
    | Back(job: Cmd<W>)

  /** Where a word starts and ends in the line. */
  datatype Span = Span(q: int, eq: int)

  datatype Redirection<W> = Redirection(file: W, out: bool)

  /** redircmd around c for each redirection in turn, the first innermost. */
  function Wrap<W>(c: Cmd<W>, rs: seq<Redirection<W>>): Cmd<W> {
    if rs == [] then c
    else Redir(Wrap(c, rs[..|rs| - 1]), rs[|rs| - 1].file, rs[|rs| - 1].out)
  }

  // ----------------------------------------------------------------------- parser

  /** The outcome of a parsing function: what it built and where it stopped, or one of the parser's panics. */
  datatype Parsed<T> = Ok(value: T, pos: int) | Panic

  ghost predicate Ends<T>(s: Line, p: int, r: Parsed<T>) {
    r.Ok? ==> p <= r.pos <= |s|
  }

  /** parseredirs, as the list of redirections it would wrap around its command. */
  function ParseRedirs(s: Line, p: int): (r: Parsed<seq<Redirection<Span>>>)
    requires 0 <= p <= |s|
    ensures Ends(s, p, r)
    decreases |s| - p
  {
    if Peek(s, p, "<>") then
      var t := GetToken(s, p);
      var w := GetToken(s, t.next);
      if w.kind != 'a' then Panic
      else
        var rest := ParseRedirs(s, w.next);
        if rest.Panic? then Panic
        else Ok([Redirection(Span(w.q, w.eq), t.kind != '<')] + rest.value, rest.pos)
    else Ok([], SkipSpace(s, p))
  }

  datatype Simple = Simple(argv: seq<Span>, redirs: seq<Redirection<Span>>)

  /** The loop of parseexec: words and redirections up to |, ), &, ; or the end. */
  function ParseArgs(s: Line, p: int, c: Simple): (r: Parsed<Simple>)
    requires 0 <= p <= |s|
    ensures Ends(s, p, r)
    decreases |s| - p
  {
    if Peek(s, p, "|)&;") then Ok(c, SkipSpace(s, p))
    else
      var t := GetToken(s, p);
      if t.kind == '\0' then Ok(c, t.next)
      else if t.kind != 'a' then Panic
      else
        var argv := c.argv + [Span(t.q, t.eq)];
        if |argv| >= MAXARGS then Panic
        else
          var rs := ParseRedirs(s, t.next);
          if rs.Panic? then Panic
          else ParseArgs(s, rs.pos, Simple(argv, c.redirs + rs.value))
  }

  function ParseExec(s: Line, p: int): (r: Parsed<Cmd<Span>>)
    requires 0 <= p <= |s|
    ensures Ends(s, p, r)
    decreases |s| - p, 2
  {
    if Peek(s, p, "(") then ParseBlock(s, p)
    else
      var rs := ParseRedirs(s, p);
      if rs.Panic? then Panic
      else
        var c := ParseArgs(s, rs.pos, Simple([], rs.value));
        if c.Panic? then Panic else Ok(Wrap(Exec(c.value.argv), c.value.redirs), c.pos)
  }

  function ParseBlock(s: Line, p: int): (r: Parsed<Cmd<Span>>)
    requires 0 <= p <= |s|
    ensures Ends(s, p, r)
    decreases |s| - p, 1
  {
    if !Peek(s, p, "(") then Panic
    else
      var t := GetToken(s, p);
      var c := ParseLine(s, t.next);
      if c.Panic? || !Peek(s, c.pos, ")") then Panic
      else
        var u := GetToken(s, c.pos);
        var rs := ParseRedirs(s, u.next);
        if rs.Panic? then Panic else Ok(Wrap(c.value, rs.value), rs.pos)
  }

  function ParsePipe(s: Line, p: int): (r: Parsed<Cmd<Span>>)
    requires 0 <= p <= |s|
    ensures Ends(s, p, r)
    decreases |s| - p, 3
  {
    var c := ParseExec(s, p);
    if c.Panic? then Panic
    else if Peek(s, c.pos, "|") then
      var t := GetToken(s, c.pos);
      var d := ParsePipe(s, t.next);
      if d.Panic? then Panic else Ok(Pipe(c.value, d.value), d.pos)
    else Ok(c.value, SkipSpace(s, c.pos))
  }

  /** The loop of parseline: a backcmd for each &. */
  function ParseBacks(s: Line, p: int, c: Cmd<Span>): (r: Parsed<Cmd<Span>>)
    requires 0 <= p <= |s|
    ensures r.Ok? && Ends(s, p, r)
    decreases |s| - p
  {
    if Peek(s, p, "&") then ParseBacks(s, GetToken(s, p).next, Back(c))
    else Ok(c, SkipSpace(s, p))
  }

  function ParseLine(s: Line, p: int): (r: Parsed<Cmd<Span>>)
    requires 0 <= p <= |s|
    ensures Ends(s, p, r)
    decreases |s| - p, 4
  {
    var c := ParsePipe(s, p);
    if c.Panic? then Panic
    else
      var b := ParseBacks(s, c.pos, c.value);
      if Peek(s, b.pos, ";") then
        var d := ParseLine(s, GetToken(s, b.pos).next);
        if d.Panic? then Panic else Ok(List(b.value, d.value), d.pos)
      else Ok(b.value, SkipSpace(s, b.pos))
  }

  /** parsecmd, before nulterminate. */
  function ParseCmd(s: Line): Parsed<Cmd<Span>> {
    var c := ParseLine(s, 0);
    if c.Panic? || SkipSpace(s, c.pos) != |s| then Panic else Ok(c.value, |s|)
  }
}
