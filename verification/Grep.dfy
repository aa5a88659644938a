/**
  The regular-expression matcher of grep.c (match, matchhere, matchstar), proved
  to decide membership in the language its pattern denotes.
 */
module Grep {
  import opened CStrings

  // ---------------------------------------------------------------- language

  /** One item of a pattern: a character, any character, or a repetition of either. */
  datatype Item = Lit(c: char) | Any | StarLit(c: char) | StarAny

  ghost predicate InItem(it: Item, s: string) {
    match it
    case Lit(c) => s == [c]
    case Any => |s| == 1
    case StarLit(c) => forall i :: 0 <= i < |s| ==> s[i] == c
    case StarAny => true
  }

  /** The items of a pattern from which a leading `^` has been removed. */
  ghost function Items(re: CString): seq<Item> {
    if re == "" || re == "$" then []
    else if |re| >= 2 && re[1] == '*' then
      [if re[0] == '.' then StarAny else StarLit(re[0])] + Items(re[2..])
    else [if re[0] == '.' then Any else Lit(re[0])] + Items(re[1..])
  }

  /** Whether such a pattern ends in the anchor `$` (one that no `*` follows or has consumed). */
  ghost predicate EndAnchored(re: CString) {
    if re == "" then false
    else if re == "$" then true
    else if |re| >= 2 && re[1] == '*' then EndAnchored(re[2..])
    else EndAnchored(re[1..])
  }

  ghost function Concat(parts: seq<string>): string {
    if parts == [] then "" else parts[0] + Concat(parts[1..])
  }

  /** `s` splits into one piece per item, each piece in the language of its item. */
  ghost predicate Splits(items: seq<Item>, parts: seq<string>, s: string) {
    && |parts| == |items|
    && Concat(parts) == s
    && forall i :: 0 <= i < |items| ==> InItem(items[i], parts[i])
  }

  ghost predicate InLang(items: seq<Item>, s: string) {
    exists parts :: Splits(items, parts, s)
  }

  /** Some prefix of `text` is in the language of `re`; the whole of it if `re` ends in `$`. */
  ghost predicate HasPrefix(re: CString, text: string) {
    exists k :: PrefixAt(re, text, k)
  }

  ghost predicate PrefixAt(re: CString, text: string, k: int) {
    && 0 <= k <= |text|
    && (EndAnchored(re) ==> k == |text|)
    && InLang(Items(re), text[..k])
  }

  /** The substring text[i..j] matches the whole pattern, anchors included. */
  ghost predicate Occurs(re: CString, text: string, i: int, j: int) {
    var body := Body(re);
    && 0 <= i <= j <= |text|
    && (StartAnchored(re) ==> i == 0)
    && (EndAnchored(body) ==> j == |text|)
    && InLang(Items(body), text[i..j])
  }

  predicate StartAnchored(re: CString) { re != "" && re[0] == '^' }

  function Body(re: CString): CString { if StartAnchored(re) then re[1..] else re }

  // ------------------------------------------------------ facts about languages

  lemma InLangCons(items: seq<Item>, s: string, k: nat)
    requires items != [] && k <= |s|
    requires InItem(items[0], s[..k]) && InLang(items[1..], s[k..])
    ensures InLang(items, s)
  {
    var rest :| Splits(items[1..], rest, s[k..]);
    var parts := [s[..k]] + rest;
    assert parts[1..] == rest;
    assert s[..k] + s[k..] == s;
    assert Splits(items, parts, s);
  }

  lemma InLangUncons(items: seq<Item>, s: string) returns (k: nat)
    requires items != [] && InLang(items, s)
    ensures k <= |s| && InItem(items[0], s[..k]) && InLang(items[1..], s[k..])
  {
    var parts :| Splits(items, parts, s);
    k := |parts[0]|;
    assert s == parts[0] + Concat(parts[1..]);
    assert s[..k] == parts[0] && s[k..] == Concat(parts[1..]);
    assert Splits(items[1..], parts[1..], s[k..]);
  }

  lemma InLangEmpty(s: string)
    ensures InLang([], s) <==> s == ""
  {
    if s == "" {
      assert Splits([], [], s);
    }
  }

  /** The empty pattern matches at once; `$` alone matches exactly at the end. */
  lemma HasPrefixEnds(text: string)
    ensures HasPrefix("", text)
    ensures HasPrefix("$", text) <==> text == ""
  {
    InLangEmpty("");
    assert text[..0] == "";
    assert PrefixAt("", text, 0);
    InLangEmpty(text);
    assert text[..|text|] == text;
    assert text == "" ==> PrefixAt("$", text, 0);
  }

  /** A leading single-character item consumes exactly one character. */
  lemma HasPrefixSingle(re: CString, text: string)
    requires re != "" && re != "$" && !(|re| >= 2 && re[1] == '*')
    ensures HasPrefix(re, text) <==>
              text != "" && (re[0] == '.' || re[0] == text[0]) && HasPrefix(re[1..], text[1..])
  {
    var items := Items(re);
    assert items[1..] == Items(re[1..]);
    if HasPrefix(re, text) {
      var k :| PrefixAt(re, text, k);
      var j := InLangUncons(items, text[..k]);
      assert |text[..k][..j]| == 1;
      assert text[..k][1..] == text[1..][..k - 1];
      assert PrefixAt(re[1..], text[1..], k - 1);
    }
    if text != "" && (re[0] == '.' || re[0] == text[0]) && HasPrefix(re[1..], text[1..]) {
      var k :| PrefixAt(re[1..], text[1..], k);
      assert text[..k + 1][1..] == text[1..][..k];
      assert text[..k + 1][..1] == [text[0]];
      InLangCons(items, text[..k + 1], 1);
      assert PrefixAt(re, text, k + 1);
    }
  }

  /** `c*re` matches here when `re` matches after some run of characters `c` accepts. */
  ghost predicate StarAt(c: char, re: CString, text: string, j: int) {
    && 0 <= j <= |text|
    && (forall i :: 0 <= i < j ==> c == '.' || text[i] == c)
    && HasPrefix(re, text[j..])
  }

  lemma HasPrefixStar(re: CString, text: string)
    requires |re| >= 2 && re[1] == '*'
    ensures HasPrefix(re, text) <==> exists j :: StarAt(re[0], re[2..], text, j)
  {
    var items := Items(re);
    assert items[1..] == Items(re[2..]);
    if HasPrefix(re, text) {
      var k :| PrefixAt(re, text, k);
      var j := InLangUncons(items, text[..k]);
      forall i | 0 <= i < j
        ensures re[0] == '.' || text[i] == re[0]
      {
        assert text[i] == text[..k][..j][i];
      }
      assert text[..k][j..] == text[j..][..k - j];
      assert PrefixAt(re[2..], text[j..], k - j);
      assert StarAt(re[0], re[2..], text, j);
    }
    if exists j :: StarAt(re[0], re[2..], text, j) {
      var j :| StarAt(re[0], re[2..], text, j);
      var k :| PrefixAt(re[2..], text[j..], k);
      assert text[..j + k][j..] == text[j..][..k];
      assert text[..j + k][..j] == text[..j];
      InLangCons(items, text[..j + k], j);
      assert PrefixAt(re, text, j + k);
    }
  }

  // ------------------------------------------------------------------ the code

  /** matchhere: search for re at the beginning of text[p..]. */
  method MatchHere(re: CString, text: CString, p: nat) returns (found: bool)
    requires p <= |text|
    ensures found <==> HasPrefix(re, text[p..])
    decreases |re|, 0
  {
    HasPrefixEnds(text[p..]);
    if At(re, 0) == '\0' {
      return true;
    }
    if At(re, 1) == '*' {
      found := MatchStar(re[0], re[2..], text, p);
      HasPrefixStar(re, text[p..]);
      return;
    }
    if At(re, 0) == '$' && At(re, 1) == '\0' {
      assert re == "$";
      return At(text, p) == '\0';
    }
    HasPrefixSingle(re, text[p..]);
    if At(text, p) != '\0' && (re[0] == '.' || re[0] == At(text, p)) {
      found := MatchHere(re[1..], text, p + 1);
      assert text[p..][1..] == text[p + 1..];
      return;
    }
    return false;
  }

  /** matchstar: search for c*re at the beginning of text[start..]. */
  method MatchStar(c: char, re: CString, text: CString, start: nat) returns (found: bool)
    requires start <= |text|
    ensures found <==> exists j :: StarAt(c, re, text[start..], j)
    decreases |re|, 1
  {
    var p := start;
    while true
      invariant start <= p <= |text|
      invariant forall i :: start <= i < p ==> c == '.' || text[i] == c
      invariant forall j :: 0 <= j < p - start ==> !StarAt(c, re, text[start..], j)
      decreases |text| - p
    {
      assert text[start..][p - start..] == text[p..];
      found := MatchHere(re, text, p);
      if found {
        assert StarAt(c, re, text[start..], p - start);
        return;
      }
      if !(At(text, p) != '\0' && (At(text, p) == c || c == '.')) {
        forall j | p - start <= j <= |text| - start
          ensures !StarAt(c, re, text[start..], j)
        {
          if j > p - start {
            assert text[start..][p - start] == text[p];
          }
        }
        return false;
      }
      p := p + 1;
    }
  }

  /** match: does the pattern occur anywhere in the text, its anchors respected? */
  method Match(re: CString, text: CString) returns (found: bool)
    ensures found <==> exists i, j :: Occurs(re, text, i, j)
  {
    if At(re, 0) == '^' {
      found := MatchHere(re[1..], text, 0);
      OccursAt(re, text, 0);
      assert !found ==> forall i, j :: Occurs(re, text, i, j) ==> i == 0;
      return;
    }
    var p := 0;
    while true
      invariant p <= |text|
      invariant forall i, j :: i < p ==> !Occurs(re, text, i, j)
      decreases |text| - p
    {
      found := MatchHere(re, text, p);
      OccursAt(re, text, p);
      if found {
        return;
      }
      if At(text, p) == '\0' {
        assert forall i, j :: Occurs(re, text, i, j) ==> i <= p;
        return false;
      }
      p := p + 1;
    }
  }

  /** An occurrence starting at `i` is a prefix match of text[i..]. */
  lemma OccursAt(re: CString, text: string, i: nat)
    requires i <= |text| && (StartAnchored(re) ==> i == 0)
    ensures HasPrefix(Body(re), text[i..]) <==> exists j :: Occurs(re, text, i, j)
  {
    if HasPrefix(Body(re), text[i..]) {
      var k :| PrefixAt(Body(re), text[i..], k);
      assert text[i..][..k] == text[i..i + k];
      assert Occurs(re, text, i, i + k);
    }
    if exists j :: Occurs(re, text, i, j) {
      var j :| Occurs(re, text, i, j);
      assert text[i..][..j - i] == text[i..j];
      assert PrefixAt(Body(re), text[i..], j - i);
    }
  }
}
