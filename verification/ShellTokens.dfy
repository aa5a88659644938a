/**
  The tokens of a command line, by gettoken and by the text alone.
 */
module ShellTokens {
  import opened ShellSyntax

  /** A token with its text. */
  datatype Lexeme = Lexeme(kind: char, text: string)

  function Word(w: string): Lexeme { Lexeme('a', w) }

  function Sym(c: char): Lexeme { Lexeme(c, [c]) }

  const APPEND: Lexeme := Lexeme('+', ">>")

  predicate GoodWord(w: string) {
    w != "" && forall i :: 0 <= i < |w| ==> IsWordChar(w[i])
  }

  /** A word, a symbol or >>. */
  predicate GoodToken(x: Lexeme) {
    (x.kind == 'a' && GoodWord(x.text)) || (IsSymbol(x.kind) && x.text == [x.kind]) || x == APPEND
  }

  predicate GoodTokens(ts: seq<Lexeme>) {
    forall i :: 0 <= i < |ts| ==> GoodToken(ts[i])
  }

  // -------------------------------------------------------------------- by gettoken

  /** The tokens gettoken finds from p on. */
  ghost function Lex(s: Line, p: int): seq<Lexeme>
    requires 0 <= p <= |s|
    decreases |s| - p
  {
    var t := GetToken(s, p);
    if t.kind == '\0' then [] else [Lexeme(t.kind, s[t.q..t.eq])] + Lex(s, t.next)
  }

  lemma SkipTwice(s: Line, p: int)
    requires 0 <= p <= |s|
    ensures SkipSpace(s, SkipSpace(s, p)) == SkipSpace(s, p)
    ensures Lex(s, SkipSpace(s, p)) == Lex(s, p)
  {
    assert GetToken(s, SkipSpace(s, p)) == GetToken(s, p);
  }

  /** The first character of the first token, NUL if there is none. */
  ghost function First(ts: seq<Lexeme>): char {
    if ts == [] || ts[0].text == "" then '\0' else ts[0].text[0]
  }

  /** What peek sees and what gettoken returns are the first token. */
  lemma LexFirst(s: Line, p: int, toks: string)
    requires 0 <= p <= |s| && '\0' !in toks
    ensures Peek(s, p, toks) <==> First(Lex(s, p)) in toks
    ensures var t := GetToken(s, p);
            if Lex(s, p) == [] then t.kind == '\0'
            else t.kind == Lex(s, p)[0].kind && s[t.q..t.eq] == Lex(s, p)[0].text && Lex(s, t.next) == Lex(s, p)[1..]
  {
  }

  // -------------------------------------------------------------------- by the text

  ghost predicate Blank(s: Line, p: int, q: int)
    requires 0 <= p <= q <= |s|
  {
    forall i :: p <= i < q ==> IsSpace(s[i])
  }

  /** The token x can end at e: a word as far as it goes, and > not in front of another one. */
  ghost predicate MayEnd(s: Line, e: int, x: Lexeme)
    requires 0 <= e <= |s|
  {
    e < |s| ==> (x.kind == 'a' ==> !IsWordChar(s[e])) && (x.kind == '>' ==> s[e] != '>')
  }

  /** Token x lies at q in the line. */
  ghost predicate Lies(s: Line, q: int, x: Lexeme) {
    0 <= q && q + |x.text| <= |s| && s[q..q + |x.text|] == x.text && GoodToken(x) && MayEnd(s, q + |x.text|, x)
  }

  /** From p on the line is made of the tokens, with any white space in front of, between and behind them. */
  ghost predicate Spells(s: Line, p: int, ts: seq<Lexeme>)
    requires 0 <= p <= |s|
    decreases |ts|
  {
    if ts == [] then Blank(s, p, |s|)
    else exists q :: p <= q && Lies(s, q, ts[0]) && Blank(s, p, q) && Spells(s, q + |ts[0].text|, ts[1..])
  }

  lemma {:induction false} SkipIs(s: Line, p: int, q: int)
    requires 0 <= p <= q <= |s| && Blank(s, p, q) && (q < |s| ==> !IsSpace(s[q]))
    ensures SkipSpace(s, p) == q
    decreases q - p
  {
    if p < q {
      SkipIs(s, p + 1, q);
    }
  }

  lemma {:induction false} WordEndIs(s: Line, p: int, e: int)
    requires 0 <= p <= e <= |s| && (forall i :: p <= i < e ==> IsWordChar(s[i])) && (e < |s| ==> !IsWordChar(s[e]))
    ensures WordEnd(s, p) == e
    decreases e - p
  {
    if p < e {
      WordEndIs(s, p + 1, e);
    }
  }

  /** gettoken finds the token that lies behind the white space. */
  lemma TokenFound(s: Line, p: int, q: int, x: Lexeme)
    requires 0 <= p <= q && Lies(s, q, x) && Blank(s, p, q)
    ensures var t := GetToken(s, p);
            t.kind == x.kind && t.q == q && t.eq == q + |x.text| && t.next == SkipSpace(s, t.eq)
  {
    var e := q + |x.text|;
    assert forall i :: q <= i < e ==> s[i] == s[q..e][i - q] == x.text[i - q];
    SkipIs(s, p, q);
    if x.kind == 'a' {
      WordEndIs(s, q, e);
    }
  }

  /** The token that gettoken finds lies there. */
  lemma TokenLies(s: Line, p: int)
    requires 0 <= p <= |s| && GetToken(s, p).kind != '\0'
    ensures var t := GetToken(s, p); Blank(s, p, t.q) && Lies(s, t.q, Lexeme(t.kind, s[t.q..t.eq]))
  {
    var t := GetToken(s, p);
    assert s[t.q..t.eq] == if t.kind == '+' then ['>', '>'] else if t.kind == 'a' then s[t.q..t.eq] else [s[t.q]];
  }

  lemma {:induction false} SpelledLex(s: Line, p: int, ts: seq<Lexeme>)
    requires 0 <= p <= |s| && Spells(s, p, ts)
    ensures Lex(s, p) == ts
    decreases |ts|
  {
    hide GetToken, GoodToken, MayEnd, Blank, SkipSpace, WordEnd;
    if ts == [] {
      NoToken(s, p);
    } else {
      var q :| p <= q && Lies(s, q, ts[0]) && Blank(s, p, q) && Spells(s, q + |ts[0].text|, ts[1..]);
      TokenFound(s, p, q, ts[0]);
      var t := GetToken(s, p);
      LiesShape(s, q, ts[0]);
      SpelledLex(s, t.eq, ts[1..]);
      SkipTwice(s, t.eq);
      assert Lex(s, p) == [Lexeme(t.kind, s[t.q..t.eq])] + Lex(s, t.next);
    }
  }

  lemma NoToken(s: Line, p: int)
    requires 0 <= p <= |s| && Blank(s, p, |s|)
    ensures Lex(s, p) == []
  {
    SkipIs(s, p, |s|);
  }

  lemma LiesShape(s: Line, q: int, x: Lexeme)
    requires Lies(s, q, x)
    ensures 0 <= q && q + |x.text| <= |s| && x.text != "" && x.kind != '\0' && s[q..q + |x.text|] == x.text
  {
  }

  lemma {:induction false} SpellsLater(s: Line, p: int, q: int, ts: seq<Lexeme>)
    requires 0 <= p <= q <= |s| && Blank(s, p, q) && Spells(s, q, ts)
    ensures Spells(s, p, ts)
  {
    if ts != [] {
      var r :| q <= r && Lies(s, r, ts[0]) && Blank(s, q, r) && Spells(s, r + |ts[0].text|, ts[1..]);
      assert Blank(s, p, r);
    }
  }

  lemma {:induction false} LexSpelled(s: Line, p: int)
    requires 0 <= p <= |s|
    ensures Spells(s, p, Lex(s, p))
    decreases |s| - p
  {
    hide Lies, GetToken;
    var t := GetToken(s, p);
    if t.kind == '\0' {
      AllBlank(s, p);
    } else {
      TokenLies(s, p);
      TokenEnds(s, p);
      LexSpelled(s, t.next);
      SpellsLater(s, t.eq, t.next, Lex(s, t.next));
      var ts := Lex(s, p);
      assert ts == [Lexeme(t.kind, s[t.q..t.eq])] + Lex(s, t.next);
      assert ts[1..] == Lex(s, t.next) && t.q + |ts[0].text| == t.eq;
    }
  }

  lemma AllBlank(s: Line, p: int)
    requires 0 <= p <= |s| && GetToken(s, p).kind == '\0'
    ensures Blank(s, p, |s|)
  {
  }

  lemma TokenEnds(s: Line, p: int)
    requires 0 <= p <= |s|
    ensures var t := GetToken(s, p); Blank(s, t.eq, t.next)
  {
  }

  /** The tokens that gettoken finds are those the text is made of, and there is no other way to cut it up. */
  lemma LexExactly(s: Line, p: int, ts: seq<Lexeme>)
    requires 0 <= p <= |s|
    ensures Spells(s, p, ts) <==> Lex(s, p) == ts
  {
    LexSpelled(s, p);
    if Spells(s, p, ts) {
      SpelledLex(s, p, ts);
    }
  }

  lemma {:induction false} SpelledGood(s: Line, p: int, ts: seq<Lexeme>)
    requires 0 <= p <= |s| && Spells(s, p, ts)
    ensures GoodTokens(ts)
    decreases |ts|
  {
    if ts != [] {
      var q :| p <= q && Lies(s, q, ts[0]) && Blank(s, p, q) && Spells(s, q + |ts[0].text|, ts[1..]);
      SpelledGood(s, q + |ts[0].text|, ts[1..]);
      assert forall i :: 0 < i < |ts| ==> ts[i] == ts[1..][i - 1];
    }
  }

  lemma LexGood(s: Line, p: int)
    requires 0 <= p <= |s|
    ensures GoodTokens(Lex(s, p))
  {
    LexSpelled(s, p);
    SpelledGood(s, p, Lex(s, p));
  }
}
