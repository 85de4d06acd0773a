/**
 * The placeholder scanner of a URI template: the pattern `\{(\w[-\w\.]*)\}` applied
 * with `Matcher.find`, leftmost match first, each search starting where the previous
 * match ended. Text that is not part of a match (including a `{` that does not open a
 * valid `{name}`) is literal.
 */
module Placeholders {
  import opened Results

  /** `\w` of java.util.regex without UNICODE_CHARACTER_CLASS: `[A-Za-z0-9_]`. */
  predicate IsWordChar(c: char) {
    ('a' <= c <= 'z') || ('A' <= c <= 'Z') || ('0' <= c <= '9') || c == '_'
  }

  /** A character of the class `[-\w\.]`. */
  predicate IsNameChar(c: char) {
    IsWordChar(c) || c == '-' || c == '.'
  }

  /** A string matched by `[-\w\.]*`. */
  predicate NameChars(n: string) {
    n == [] || (IsNameChar(n[0]) && NameChars(n[1..]))
  }

  /** A string matched by the group `(\w[-\w\.]*)`. */
  predicate IsName(n: string) {
    |n| > 0 && IsWordChar(n[0]) && NameChars(n[1..])
  }

  /** `[-\w\.]*` accepts exactly the strings made of name characters. */
  lemma {:induction false} NameCharsAll(n: string)
    ensures NameChars(n) <==> forall k :: 0 <= k < |n| ==> IsNameChar(n[k])
  {
    if n != [] {
      NameCharsAll(n[1..]);
      assert forall k :: 1 <= k < |n| ==> n[k] == n[1..][k - 1];
    }
  }

  /** The whole pattern matches `s[p..e]`: an opening brace, a name, a closing brace. */
  predicate MatchesAt(s: string, p: nat, e: nat) {
    p + 2 <= e <= |s| && s[p] == '{' && s[e - 1] == '}' && IsName(s[p + 1 .. e - 1])
  }

  /** The end of the longest run of name characters starting at `j` (greedy `[-\w\.]*`). */
  function NameRunEnd(s: string, j: nat): (k: nat)
    requires j <= |s|
    ensures j <= k <= |s|
    ensures NameChars(s[j..k])
    ensures k == |s| || !IsNameChar(s[k])
    decreases |s| - j
  {
    if j < |s| && IsNameChar(s[j]) then
      var k := NameRunEnd(s, j + 1);
      assert s[j..k][1..] == s[j + 1 .. k];
      k
    else
      j
  }

  /**
   * The end of the match that starts at `p`, if the pattern matches there. Since `}` is
   * not a name character, the greedy run is the only candidate, so the match is unique
   * (see PlaceholderAtExact).
   */
  function PlaceholderAt(s: string, p: nat): (r: Option<nat>)
    requires p <= |s|
    ensures r.Some? ==> MatchesAt(s, p, r.value)
  {
    if p + 1 < |s| && s[p] == '{' && IsWordChar(s[p + 1]) then
      var k := NameRunEnd(s, p + 2);
      if k < |s| && s[k] == '}' then
        RunIsName(s, p + 1, k);
        Some(k + 1)
      else
        None
    else
      None
  }

  /** The scanner reports a match from `p` to `e` exactly when the pattern matches `s[p..e]`. */
  lemma PlaceholderAtExact(s: string, p: nat, e: nat)
    requires p <= |s|
    ensures PlaceholderAt(s, p) == Some(e) <==> MatchesAt(s, p, e)
  {
    if MatchesAt(s, p, e) {
      assert s[p + 1] == s[p + 1 .. e - 1][0];
      NoMatchPastRun(s, p, e, NameRunEnd(s, p + 2));
    }
  }

  /** A word character followed by a run of name characters is a name. */
  lemma RunIsName(s: string, a: nat, b: nat)
    requires a < b <= |s| && IsWordChar(s[a]) && NameChars(s[a + 1 .. b])
    ensures IsName(s[a..b])
  {
    assert s[a..b][1..] == s[a + 1 .. b];
  }

  /** A match ending at `e` forces the greedy run from `p + 2` to stop exactly at `e - 1`. */
  lemma NoMatchPastRun(s: string, p: nat, e: nat, k: nat)
    requires p + 2 <= |s| && MatchesAt(s, p, e) && k == NameRunEnd(s, p + 2)
    ensures k == e - 1
  {
    assert s[p + 1 .. e - 1][1..] == s[p + 2 .. e - 1];
    RunEnd(s, p + 2, e - 1);
  }

  /** The greedy run stops at the first character that is not a name character. */
  lemma {:induction false} RunEnd(s: string, j: nat, k: nat)
    requires j <= k < |s| && NameChars(s[j..k]) && !IsNameChar(s[k])
    ensures NameRunEnd(s, j) == k
    decreases k - j
  {
    if j < k {
      assert s[j..k][0] == s[j] && s[j..k][1..] == s[j + 1 .. k];
      RunEnd(s, j + 1, k);
    }
  }

  /**
   * `Matcher.find` from position `from`: the leftmost placeholder at or after `from`,
   * as (start, end).
   */
  function Find(s: string, from: nat): (r: Option<(nat, nat)>)
    requires from <= |s|
    ensures r.Some? ==> from <= r.value.0 < r.value.1 <= |s|
    ensures r.Some? ==> PlaceholderAt(s, r.value.0) == Some(r.value.1)
    decreases |s| - from
  {
    if from == |s| then None
    else
      match PlaceholderAt(s, from)
      case Some(e) => Some((from, e))
      case None => Find(s, from + 1)
  }

  /** `find` returns the leftmost match, and finds nothing only when nothing matches. */
  lemma {:induction false} FindLeftmost(s: string, from: nat)
    requires from <= |s|
    ensures Find(s, from).Some? ==> forall p :: from <= p < Find(s, from).value.0 ==> PlaceholderAt(s, p) == None
    ensures Find(s, from).None? ==> forall p :: from <= p <= |s| ==> PlaceholderAt(s, p) == None
    decreases |s| - from
  {
    if from < |s| && PlaceholderAt(s, from).None? {
      FindLeftmost(s, from + 1);
    }
  }

  /** Conversely, a match with no match before it is the one `find` returns. */
  lemma {:induction false} FindFirst(s: string, from: nat, p: nat, e: nat)
    requires from <= p <= |s| && PlaceholderAt(s, p) == Some(e)
    requires forall q :: from <= q < p ==> PlaceholderAt(s, q) == None
    ensures Find(s, from) == Some((p, e))
    decreases p - from
  {
    if from < p {
      FindFirst(s, from + 1, p, e);
    }
  }

  /** One literal character, or one recognised placeholder with its name. */
  datatype Token = Lit(c: char) | Var(name: string)

  /** The scan of `s[i..]`: a placeholder where one matches, otherwise one literal character. */
  function TokensFrom(s: string, i: nat): seq<Token>
    requires i <= |s|
    decreases |s| - i
  {
    if i == |s| then []
    else
      match PlaceholderAt(s, i)
      case Some(e) => [Var(s[i + 1 .. e - 1])] + TokensFrom(s, e)
      case None => [Lit(s[i])] + TokensFrom(s, i + 1)
  }

  /** The scan of a whole template. */
  function Tokens(s: string): seq<Token> {
    TokensFrom(s, 0)
  }

  /** The scan at a position where a placeholder matches. */
  lemma TokensFromVar(s: string, i: nat, e: nat)
    requires i < |s| && PlaceholderAt(s, i) == Some(e)
    ensures TokensFrom(s, i) == [Var(s[i + 1 .. e - 1])] + TokensFrom(s, e)
  {
  }

  /** The scan at a position where no placeholder matches. */
  lemma TokensFromLit(s: string, i: nat)
    requires i < |s| && PlaceholderAt(s, i) == None
    ensures TokensFrom(s, i) == [Lit(s[i])] + TokensFrom(s, i + 1)
  {
  }

  /** Literal text as tokens. */
  function Lits(t: string): seq<Token> {
    if t == [] then [] else [Lit(t[0])] + Lits(t[1..])
  }

  /** The names a token sequence mentions. */
  function VarNames(toks: seq<Token>): set<string> {
    set k | 0 <= k < |toks| && toks[k].Var? :: toks[k].name
  }

  /** Writes a token sequence back as template text. */
  function Unscan(toks: seq<Token>): string {
    if toks == [] then ""
    else
      (match toks[0] case Lit(c) => [c] case Var(n) => "{" + n + "}") + Unscan(toks[1..])
  }

  /**
   * What the loop `while (m.find())` sees: from a search position `i`, the scan is the
   * literal text up to the next match, that placeholder, then the scan after the match.
   */
  lemma {:induction false} FindSplitsTokens(s: string, i: nat, p: nat, e: nat)
    requires i <= |s| && Find(s, i) == Some((p, e))
    ensures TokensFrom(s, i) == Lits(s[i..p]) + ([Var(s[p + 1 .. e - 1])] + TokensFrom(s, e))
    decreases |s| - i
  {
    if p == i {
      FindSplitsHere(s, i, e);
    } else {
      assert Find(s, i + 1) == Some((p, e));
      FindSplitsTokens(s, i + 1, p, e);
      FindSplitsLit(s, i, p, [Var(s[p + 1 .. e - 1])] + TokensFrom(s, e));
    }
  }

  /** The match starts right at the search position. */
  lemma FindSplitsHere(s: string, i: nat, e: nat)
    requires i < |s| && PlaceholderAt(s, i) == Some(e)
    ensures TokensFrom(s, i) == Lits(s[i..i]) + ([Var(s[i + 1 .. e - 1])] + TokensFrom(s, e))
  {
    TokensFromVar(s, i, e);
    assert Lits(s[i..i]) == [];
  }

  /** A literal character before the match. */
  lemma FindSplitsLit(s: string, i: nat, p: nat, rest: seq<Token>)
    requires i < p <= |s| && PlaceholderAt(s, i) == None
    requires TokensFrom(s, i + 1) == Lits(s[i + 1 .. p]) + rest
    ensures TokensFrom(s, i) == Lits(s[i..p]) + rest
  {
    TokensFromLit(s, i);
    LitsCons(s, i, p, rest);
  }

  /** Literal text taken one character at a time. */
  lemma LitsCons(s: string, i: nat, p: nat, rest: seq<Token>)
    requires i < p <= |s|
    ensures Lits(s[i..p]) + rest == [Lit(s[i])] + (Lits(s[i + 1 .. p]) + rest)
  {
    var t := s[i..p];
    assert t[0] == s[i] && t[1..] == s[i + 1 .. p];
  }

  /** ... or all literal text when no match is left. */
  lemma {:induction false} FindNoneAllLiteral(s: string, i: nat)
    requires i <= |s| && Find(s, i) == None
    ensures TokensFrom(s, i) == Lits(s[i..])
    decreases |s| - i
  {
    if i < |s| {
      FindNoneAllLiteral(s, i + 1);
      var t := s[i..];
      assert t[0] == s[i] && t[1..] == s[i + 1 ..];
      assert Lits(t) == [Lit(s[i])] + Lits(s[i + 1 ..]);
    }
  }

  /** Scanning loses nothing: writing the tokens back gives the scanned text. */
  lemma {:induction false} UnscanTokensFrom(s: string, i: nat)
    requires i <= |s|
    ensures Unscan(TokensFrom(s, i)) == s[i..]
    decreases |s| - i
  {
    if i < |s| {
      match PlaceholderAt(s, i)
      case Some(e) =>
        UnscanTokensFrom(s, e);
        UnscanVar(s, i, e);
      case None =>
        UnscanTokensFrom(s, i + 1);
        UnscanLit(s, i);
    }
  }

  lemma UnscanVar(s: string, i: nat, e: nat)
    requires i < |s| && PlaceholderAt(s, i) == Some(e)
    requires Unscan(TokensFrom(s, e)) == s[e..]
    ensures Unscan(TokensFrom(s, i)) == s[i..]
  {
    TokensFromVar(s, i, e);
    UnscanCons(Var(s[i + 1 .. e - 1]), TokensFrom(s, e));
    SliceAround(s, i, e);
  }

  lemma UnscanLit(s: string, i: nat)
    requires i < |s| && PlaceholderAt(s, i) == None
    requires Unscan(TokensFrom(s, i + 1)) == s[i + 1 ..]
    ensures Unscan(TokensFrom(s, i)) == s[i..]
  {
    TokensFromLit(s, i);
    UnscanCons(Lit(s[i]), TokensFrom(s, i + 1));
    assert s[i..] == [s[i]] + s[i + 1 ..];
  }

  lemma UnscanCons(t: Token, rest: seq<Token>)
    ensures Unscan([t] + rest) == (match t case Lit(c) => [c] case Var(n) => "{" + n + "}") + Unscan(rest)
  {
    assert ([t] + rest)[0] == t && ([t] + rest)[1..] == rest;
  }

  /** A braced name in front of the rest of the text. */
  lemma SliceAround(s: string, i: nat, e: nat)
    requires i + 2 <= e <= |s| && s[i] == '{' && s[e - 1] == '}'
    ensures s[i..] == "{" + s[i + 1 .. e - 1] + "}" + s[e..]
  {
    assert s[i..e] == [s[i]] + s[i + 1 .. e - 1] + [s[e - 1]];
    assert s[i..] == s[i..e] + s[e..];
  }

  /** Every placeholder the scan reports carries a name the pattern's group accepts. */
  lemma {:induction false} TokenNamesValid(s: string, i: nat)
    requires i <= |s|
    ensures forall k :: 0 <= k < |TokensFrom(s, i)| && TokensFrom(s, i)[k].Var? ==>
              IsName(TokensFrom(s, i)[k].name)
    decreases |s| - i
  {
    if i < |s| {
      match PlaceholderAt(s, i)
      case Some(e) =>
        TokenNamesValid(s, e);
      case None =>
        TokenNamesValid(s, i + 1);
    }
  }

  /** Text without an opening brace holds no placeholder: it scans as literal text. */
  lemma {:induction false} NoBraceAllLiteral(s: string, i: nat)
    requires i <= |s| && '{' !in s
    ensures TokensFrom(s, i) == Lits(s[i..])
    decreases |s| - i
  {
    if i < |s| {
      assert s[i] in s;
      NoBraceAllLiteral(s, i + 1);
      var t := s[i..];
      assert t[0] == s[i] && t[1..] == s[i + 1 ..];
    }
  }
}
