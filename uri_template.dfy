/**
 * The URI template value: what the template parser produced, the facade over it, and the
 * two lenient substitution loops (`createURI(Map)` and `createURI(String[], int, int)`).
 */
module UriTemplates {
  import opened Results
  import opened Placeholders
  import opened Substitution

  /** The compiled pattern; its regular expression and matching are not part of this model. */
  datatype PatternWithGroups =
    | PatternWithGroups(regex: string, groupIndexes: seq<int>)
    | EmptyPattern   // PatternWithGroups.EMPTY

  /** What the template parser reports about a template string. */
  datatype ParsedTemplate = ParsedTemplate(
    template: string,
    normalizedTemplate: string,
    regex: string,
    groupIndexes: seq<int>,
    names: seq<string>,
    numberOfExplicitRegexes: int,
    numberOfLiteralCharacters: int)

  datatype TemplateError = EmptyTemplate | NullArgument

  /** An immutable URI template. */
  datatype UriTemplate = UriTemplate(
    template: string,
    normalizedTemplate: string,
    pattern: PatternWithGroups,
    endsWithSlash: bool,
    templateVariables: seq<string>,
    numOfExplicitRegexes: int,
    numOfCharacters: int)

  /** The `EMPTY` sentinel built by the private no-argument constructor. */
  function Empty(): UriTemplate {
    UriTemplate("", "", EmptyPattern, false, [], 0, 0)
  }

  /**
   * The constructor over a parser's output: the fields are copied from the parser and
   * `endsWithSlash` records whether the template's last character is `/`. An empty
   * template is rejected (the parser throws IllegalArgumentException for it).
   */
  function FromParser(p: ParsedTemplate): (r: Result<UriTemplate, TemplateError>)
    ensures r.Err? <==> p.template == ""
    ensures r.Ok? ==> (r.value.endsWithSlash <==> p.template[..|p.template| - 1] + "/" == p.template)
    ensures r.Ok? ==> && r.value.template == p.template
                      && r.value.normalizedTemplate == p.normalizedTemplate
                      && r.value.pattern == PatternWithGroups(p.regex, p.groupIndexes)
                      && r.value.templateVariables == p.names
                      && r.value.numOfExplicitRegexes == p.numberOfExplicitRegexes
                      && r.value.numOfCharacters == p.numberOfLiteralCharacters
  {
    if p.template == [] then Err(EmptyTemplate)
    else
      var t := p.template;
      assert t[..|t| - 1] + "/" == t <==> t[|t| - 1] == '/' by {
        if t[|t| - 1] == '/' {
          assert t == t[..|t| - 1] + [t[|t| - 1]];
        }
        assert (t[..|t| - 1] + "/")[|t| - 1] == '/';
      }
      Ok(UriTemplate(t, p.normalizedTemplate, PatternWithGroups(p.regex, p.groupIndexes),
                     t[|t| - 1] == '/', p.names,
                     p.numberOfExplicitRegexes, p.numberOfLiteralCharacters))
  }

  /** The membership loop over a variable list. */
  function Contains(list: seq<string>, name: string): (r: bool)
    ensures r <==> name in list
  {
    if list == [] then false else list[0] == name || Contains(list[1..], name)
  }

  /** `isTemplateVariablePresent`: the name is one of the template's variables. */
  function IsTemplateVariablePresent(t: UriTemplate, name: string): (r: bool)
    ensures r <==> name in t.templateVariables
  {
    Contains(t.templateVariables, name)
  }

  /** `getNumberOfTemplateVariables`: zero exactly when no name is present. */
  function NumberOfTemplateVariables(t: UriTemplate): (n: nat)
    ensures n == 0 <==> forall name :: !IsTemplateVariablePresent(t, name)
  {
    if t.templateVariables != [] then
      assert IsTemplateVariablePresent(t, t.templateVariables[0]);
      |t.templateVariables|
    else 0
  }

  /** The sentinel has nothing in it, and substituting into it gives the empty string. */
  lemma EmptyIsEmpty(values: map<string, Option<string>>)
    ensures var e := Empty();
      && e.template == "" && !e.endsWithSlash
      && NumberOfTemplateVariables(e) == 0 && e.numOfExplicitRegexes == 0 && e.numOfCharacters == 0
      && forall name :: !IsTemplateVariablePresent(e, name)
    ensures Fill(Tokens(Empty().normalizedTemplate), NonNull(values)) == ""
  {
  }

  /**
   * The source of the generated regular expression. A compiled pattern's equality and hash
   * code are those of its source alone; the group indexes are ignored. `EMPTY` has the
   * empty source.
   */
  function Source(p: PatternWithGroups): string {
    match p
    case PatternWithGroups(regex, _) => regex
    case EmptyPattern => ""
  }

  /** Equality looks at the pattern source only; anything that is not a template (or null) is `None`. */
  function Equals(a: UriTemplate, o: Option<UriTemplate>): (r: bool)
    ensures r <==> o.Some? && Source(o.value.pattern) == Source(a.pattern)
  {
    match o
    case Some(b) => Source(a.pattern) == Source(b.pattern)
    case None => false
  }

  /** `hashCode` delegates to the pattern's hash code, which is the hash `sourceHash` of its source. */
  function HashCode(t: UriTemplate, sourceHash: string -> int): int {
    sourceHash(Source(t.pattern))
  }

  /**
   * Equality is an equivalence that ignores everything but the pattern source, and equal
   * templates have equal hash codes.
   */
  lemma EqualsConsistent(a: UriTemplate, b: UriTemplate, c: UriTemplate, h: string -> int)
    ensures Equals(a, Some(a))
    ensures Equals(a, Some(b)) <==> Equals(b, Some(a))
    ensures Equals(a, Some(b)) && Equals(b, Some(c)) ==> Equals(a, Some(c))
    ensures Equals(a, Some(b)) ==> HashCode(a, h) == HashCode(b, h)
    ensures Source(a.pattern) == Source(b.pattern) ==> Equals(a, Some(b))
  {
  }

  /**
   * Two templates parsed to the same regular expression are equal and hash alike, whatever
   * their group indexes and whatever else differs between them.
   */
  lemma SameRegexEqual(p: ParsedTemplate, q: ParsedTemplate, h: string -> int)
    requires p.template != "" && q.template != "" && p.regex == q.regex
    ensures var a, b := FromParser(p).value, FromParser(q).value;
      Equals(a, Some(b)) && HashCode(a, h) == HashCode(b, h)
  {
  }

  /**
   * `match(uri, Map)`: a null output map throws before the pattern is consulted; otherwise
   * the pattern's matcher `engine` decides and fills the map.
   */
  function MatchToMap(t: UriTemplate, uri: string, out: Option<map<string, string>>,
                      engine: (PatternWithGroups, string, seq<string>, map<string, string>) -> (bool, map<string, string>))
    : (r: Result<(bool, map<string, string>), TemplateError>)
    ensures out.None? ==> r == Err(NullArgument)
    ensures out.Some? ==> r == Ok(engine(t.pattern, uri, t.templateVariables, out.value))
  {
    if out.None? then Err(NullArgument)
    else Ok(engine(t.pattern, uri, t.templateVariables, out.value))
  }

  /** `match(uri, List)`: the same null check, then the group values from the pattern. */
  function MatchToList(t: UriTemplate, uri: string, out: Option<seq<string>>,
                       engine: (PatternWithGroups, string, seq<string>) -> (bool, seq<string>))
    : (r: Result<(bool, seq<string>), TemplateError>)
    ensures out.None? ==> r == Err(NullArgument)
    ensures out.Some? ==> r == Ok(engine(t.pattern, uri, out.value))
  {
    if out.None? then Err(NullArgument)
    else Ok(engine(t.pattern, uri, out.value))
  }

  /**
   * `createURI(Map)`: each placeholder of the normalized template is replaced by its
   * non-null value or by nothing; literal text is copied in order.
   */
  method CreateUri(t: UriTemplate, values: map<string, Option<string>>) returns (r: string)
    ensures r == Fill(Tokens(t.normalizedTemplate), NonNull(values))
  {
    var s := t.normalizedTemplate;
    ghost var m := NonNull(values);
    var b := "";
    var i := 0;
    var found := Find(s, 0);
    while found.Some?
      invariant i <= |s| && found == Find(s, i)
      invariant Fill(Tokens(s), m) == b + Fill(TokensFrom(s, i), m)
      decreases |s| - i
    {
      var (start, end) := found.value;
      var name := s[start + 1 .. end - 1];
      var tValue := Get(values, name);
      var piece := if tValue.Some? then tValue.value else "";
      LenientStep(s, i, start, end, m, b, piece);
      b := b + s[i..start] + piece;
      i := end;
      found := Find(s, i);
    }
    FillFindNone(s, i, m);
    r := b + s[i..];
  }

  /** The invariant of CreateUri's loop survives one match. */
  lemma LenientStep(s: string, i: nat, start: nat, end: nat, m: map<string, string>, b: string, piece: string)
    requires i <= |s| && Find(s, i) == Some((start, end))
    requires piece == Piece(Var(s[start + 1 .. end - 1]), m)
    requires Fill(Tokens(s), m) == b + Fill(TokensFrom(s, i), m)
    ensures Fill(Tokens(s), m) == (b + s[i..start] + piece) + Fill(TokensFrom(s, end), m)
  {
    FillFindStep(s, i, start, end, m);
    Regroup(Fill(Tokens(s), m), b, Fill(TokensFrom(s, i), m), s[i..start], piece, Fill(TokensFrom(s, end), m));
  }

  lemma Regroup(w: string, b: string, x: string, lit: string, piece: string, rest: string)
    requires w == b + x && x == lit + (piece + rest)
    ensures w == (b + lit + piece) + rest
  {
    assert b + (lit + (piece + rest)) == (b + lit + piece) + rest;
  }

  /**
   * `createURI(String[], offset, length)`: positional substitution over
   * `values[offset, offset + length)`, with reuse of repeated names; an index outside
   * the array throws.
   */
  method CreateUriFromRange(t: UriTemplate, values: seq<Option<string>>, offset: int, length: int)
    returns (r: Result<string, UriError>)
    ensures r == TextOf(Positional(Tokens(t.normalizedTemplate), values, offset, offset + length, map[]))
  {
    var s := t.normalizedTemplate;
    var end := offset + length;
    var mapValues: map<string, string> := map[];
    var b := "";
    var v := offset;
    var i := 0;
    var found := Find(s, 0);
    ghost var goal := Positional(Tokens(t.normalizedTemplate), values, offset, offset + length, map[]);
    PrependNothing(goal);
    while found.Some?
      invariant i <= |s| && found == Find(s, i)
      invariant goal == Prepend(b, Positional(TokensFrom(s, i), values, v, end, mapValues))
      decreases |s| - i
    {
      var (start, e) := found.value;
      var tVariable := s[start + 1 .. e - 1];
      PositionalMatchStep(b, s, i, start, e, values, v, end, mapValues);
      b := b + s[i..start];
      var step := SubstituteNext(b, tVariable, TokensFrom(s, e), values, v, end, mapValues);
      if step.Err? {
        return Err(step.error);
      }
      b, v, mapValues := step.value.0, step.value.1, step.value.2;
      i := e;
      found := Find(s, i);
    }
    PositionalFindNone(goal, b, s, i, values, v, end, mapValues);
    r := Ok(b + s[i..]);
  }

  /**
   * The body of `createURI(String[], int, int)`'s loop for one placeholder `n`: a name seen
   * before repeats its value; otherwise, inside the range, the next slot is taken (and
   * remembered when non-null), and a slot outside the array throws. The outcome is the
   * buffer, cursor and bindings after `n`, from which positional substitution goes on with
   * the rest of the template.
   */
  method SubstituteNext(b: string, n: string, ghost tail: seq<Token>, values: seq<Option<string>>,
                        v: int, end: int, mapValues: map<string, string>)
    returns (r: Result<(string, int, map<string, string>), UriError>)
    ensures r.Err? ==> (r.error == IndexOutOfBounds(v)
                        && Prepend(b, Positional([Var(n)] + tail, values, v, end, mapValues)) == Err(r.error))
    ensures r.Ok? ==> (Prepend(b, Positional([Var(n)] + tail, values, v, end, mapValues))
                       == Prepend(r.value.0, Positional(tail, values, r.value.1, end, r.value.2)))
  {
    if n in mapValues {
      PositionalVarSeen(b, n, tail, values, v, end, mapValues);
      return Ok((b + mapValues[n], v, mapValues));
    }
    if v < end {
      if v < 0 || v >= |values| {
        PositionalVarOutside(n, tail, values, v, end, mapValues);
        return Err(IndexOutOfBounds(v));
      }
      var tValue := values[v];
      if tValue.Some? {
        PositionalVarTake(b, n, tail, values, v, end, mapValues);
        return Ok((b + tValue.value, v + 1, mapValues[n := tValue.value]));
      }
      PositionalVarNull(b, n, tail, values, v, end, mapValues);
      return Ok((b, v + 1, mapValues));
    }
    PositionalVarPast(b, n, tail, values, v, end, mapValues);
    r := Ok((b, v, mapValues));
  }

  /** Inside the array, positional substitution never throws. */
  lemma {:induction false} PositionalInRangeOk(toks: seq<Token>, values: seq<Option<string>>,
                                               v: int, end: int, seen: map<string, string>)
    requires 0 <= v <= end <= |values|
    ensures Positional(toks, values, v, end, seen).Ok?
  {
    if toks != [] {
      match toks[0]
      case Lit(_) => PositionalInRangeOk(toks[1..], values, v, end, seen);
      case Var(n) =>
        if n in seen || v >= end {
          PositionalInRangeOk(toks[1..], values, v, end, seen);
        } else if values[v].Some? {
          PositionalInRangeOk(toks[1..], values, v + 1, end, seen[n := values[v].value]);
        } else {
          PositionalInRangeOk(toks[1..], values, v + 1, end, seen);
        }
    }
  }

  /** `createURI(String...)`: the whole array as the range; it never throws. */
  method CreateUriFromValues(t: UriTemplate, values: seq<Option<string>>) returns (r: string)
    ensures Positional(Tokens(t.normalizedTemplate), values, 0, |values|, map[]).Ok?
    ensures r == Positional(Tokens(t.normalizedTemplate), values, 0, |values|, map[]).value.text
  {
    PositionalInRangeOk(Tokens(t.normalizedTemplate), values, 0, |values|, map[]);
    var res := CreateUriFromRange(t, values, 0, |values|);
    r := res.value;
  }

  // ---------------------------------------------------------------------------------
  // Properties of the substitution routines on particular templates.

  /** A template with one placeholder after brace-free literal text scans as that text and that name. */
  lemma SinglePlaceholderTokens(lit: string, n: string)
    requires '{' !in lit && IsName(n)
    ensures Tokens(lit + "{" + n + "}") == Lits(lit) + [Var(n)]
  {
    var s := lit + "{" + n + "}";
    var p := |lit|;
    PlaceholderAfterLiteral(lit, n);
    FindFirst(s, 0, p, |s|);
    FindSplitsTokens(s, 0, p, |s|);
    assert s[0..p] == lit;
    assert TokensFrom(s, |s|) == [];
  }

  /** In `lit{n}` the only match is the placeholder at the end. */
  lemma PlaceholderAfterLiteral(lit: string, n: string)
    requires '{' !in lit && IsName(n)
    ensures var s := lit + "{" + n + "}";
      && PlaceholderAt(s, |lit|) == Some(|s|)
      && s[|lit| + 1 .. |s| - 1] == n
      && forall q :: 0 <= q < |lit| ==> PlaceholderAt(s, q) == None
  {
    var s := lit + "{" + n + "}";
    var p := |lit|;
    assert s[p + 1 .. |s| - 1] == n;
    assert MatchesAt(s, p, |s|);
    PlaceholderAtExact(s, p, |s|);
    forall q | 0 <= q < p ensures PlaceholderAt(s, q) == None {
      assert s[q] == lit[q];
    }
  }

  /** `createURI(Map)` on "/users/{id}" without a value for `id` gives "/users/". */
  lemma LenientMissingValueIsEmpty(t: UriTemplate)
    requires t.normalizedTemplate == "/users/{id}"
    ensures Fill(Tokens(t.normalizedTemplate), NonNull(map[])) == "/users/"
  {
    assert "/users/{id}" == "/users/" + "{" + "id" + "}";
    SinglePlaceholderTokens("/users/", "id");
    FillAppend(Lits("/users/"), [Var("id")], map[]);
    FillLits("/users/", map[]);
  }

  /** The strict substitution of the same template without a value throws naming `id`. */
  lemma StrictMissingValueThrows(enc: string -> string)
    ensures Strict(Tokens("/users/{id}"), map[], enc) == Err(NoValue("id"))
  {
    assert "/users/{id}" == "/users/" + "{" + "id" + "}";
    SinglePlaceholderTokens("/users/", "id");
    NamesOfLitsThenVar("/users/", "id");
  }

  lemma {:induction false} NamesOfLitsThenVar(lit: string, n: string)
    ensures Names(Lits(lit) + [Var(n)]) == {n}
  {
    if lit != [] {
      assert (Lits(lit) + [Var(n)])[1..] == Lits(lit[1..]) + [Var(n)];
      NamesOfLitsThenVar(lit[1..], n);
    } else {
      assert Lits(lit) + [Var(n)] == [Var(n)];
    }
  }

  /** Substituting every placeholder by its own `{name}` text gives the normalized template back. */
  lemma CreateUriWithOwnPlaceholders(t: UriTemplate, values: map<string, Option<string>>)
    requires forall n :: n in Names(Tokens(t.normalizedTemplate)) ==> Get(values, n) == Some("{" + n + "}")
    ensures Fill(Tokens(t.normalizedTemplate), NonNull(values)) == t.normalizedTemplate
  {
    FillWithOwnPlaceholders(Tokens(t.normalizedTemplate), NonNull(values));
    UnscanTokensFrom(t.normalizedTemplate, 0);
  }

  /**
   * Strict and lenient substitution agree when every placeholder has a value and the
   * encoder leaves values unchanged; otherwise the strict one throws.
   */
  lemma StrictAgreesWithLenient(toks: seq<Token>, values: map<string, Option<string>>)
    ensures (forall n :: n in Names(toks) ==> Get(values, n).Some?)
        ==> Strict(toks, values, x => x) == Ok(Fill(toks, NonNull(values)))
    ensures (exists n :: n in Names(toks) && Get(values, n).None?)
        ==> Strict(toks, values, x => x).Err?
  {
    assert Encoded(values, x => x) == NonNull(values);
  }

  /** The scan of "/{x}/{x}". */
  lemma RepeatedTemplateTokens()
    ensures Tokens("/{x}/{x}") == [Lit('/'), Var("x"), Lit('/'), Var("x")]
  {
    var s := "/{x}/{x}";
    assert MatchesAt(s, 1, 4) && s[2..3] == "x";
    assert MatchesAt(s, 5, 8) && s[6..7] == "x";
    PlaceholderAtExact(s, 1, 4);
    PlaceholderAtExact(s, 5, 8);
    assert TokensFrom(s, 8) == [];
    assert TokensFrom(s, 5) == [Var("x")];
    assert TokensFrom(s, 4) == [Lit('/'), Var("x")];
    assert TokensFrom(s, 1) == [Var("x"), Lit('/'), Var("x")];
  }

  /**
   * "/{x}/{x}" with values ["p", "q"] gives "/p/p": the repeat reuses the value and
   * only one value is consumed.
   */
  lemma RepeatedNameReusesValue()
    ensures Positional(Tokens("/{x}/{x}"), [Some("p"), Some("q")], 0, 2, map[])
         == Ok(Progress("/p/p", 1, map["x" := "p"]))
  {
    RepeatedTemplateTokens();
    var toks := [Lit('/'), Var("x"), Lit('/'), Var("x")];
    var vs := [Some("p"), Some("q")];
    var m := map["x" := "p"];
    var t3, t2, t1 := [Var("x")], [Lit('/'), Var("x")], [Var("x"), Lit('/'), Var("x")];
    assert toks[1..] == t1 && t1[1..] == t2 && t2[1..] == t3 && t3[1..] == [];
    assert Positional(t3, vs, 1, 2, m) == Prepend("p", Ok(Progress("", 1, m)));
    assert "p" + "" == "p";
    assert Positional(t2, vs, 1, 2, m) == Prepend("/", Ok(Progress("p", 1, m)));
    assert "/" + "p" == "/p";
    assert Positional(t1, vs, 0, 2, map[]) == Prepend("p", Ok(Progress("/p", 1, m)));
    assert "p" + "/p" == "p/p";
    assert "/" + "p/p" == "/p/p";
  }

  /**
   * A null value consumes its slot without being recorded: with [null, "q"] the first
   * `{x}` renders nothing and the repeat consumes "q", giving "//q".
   */
  lemma NullValueIsNotRecorded()
    ensures Positional(Tokens("/{x}/{x}"), [None, Some("q")], 0, 2, map[])
         == Ok(Progress("//q", 2, map["x" := "q"]))
  {
    RepeatedTemplateTokens();
    var toks := [Lit('/'), Var("x"), Lit('/'), Var("x")];
    var vs := [None, Some("q")];
    var m := map["x" := "q"];
    var t3, t2, t1 := [Var("x")], [Lit('/'), Var("x")], [Var("x"), Lit('/'), Var("x")];
    assert toks[1..] == t1 && t1[1..] == t2 && t2[1..] == t3 && t3[1..] == [];
    assert Positional(t3, vs, 1, 2, map[]) == Prepend("q", Ok(Progress("", 2, m)));
    assert "q" + "" == "q";
    assert Positional(t2, vs, 1, 2, map[]) == Prepend("/", Ok(Progress("q", 2, m)));
    assert "/" + "q" == "/q";
    assert Positional(t1, vs, 0, 2, map[]) == Ok(Progress("/q", 2, m));
    assert "/" + "/q" == "//q";
  }
}
