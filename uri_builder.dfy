/**
 * Component-aware URI construction: each of scheme, authority, user info, host, port,
 * path, query and fragment is its own template; every placeholder must have a value
 * (strict substitution), values are percent-encoded for their component, and one value
 * source (a map, or one array with one cursor and one name-to-value map) serves all
 * components.
 */
module UriBuilder {
  import opened Results
  import opened Placeholders
  import opened Substitution
  import UriTemplates

  /** `UriComponent.Type` as used by the builder. */
  datatype ComponentType = Scheme | UserInfo | Host | Port | Authority | Path | QueryParam | Fragment

  /**
   * The collaborators of the builder that are outside this model: the template parser's
   * normalisation (`None` when the parser throws) and the two encoders of `UriComponent`.
   */
  datatype Codec = Codec(
    normalize: string -> Option<string>,
    encode: (string, ComponentType) -> string,
    contextualEncode: (string, ComponentType) -> string)

  /** The encoder a component uses: strict encoding when `encode` is set, contextual otherwise. */
  function Encoder(codec: Codec, t: ComponentType, encode: bool): string -> string {
    if encode then x => codec.encode(x, t) else x => codec.contextualEncode(x, t)
  }

  /** `r` appended to the text built so far. */
  function AppendTo(b: string, r: Result<string, UriError>): Result<string, UriError> {
    match r
    case Ok(x) => Ok(b + x)
    case Err(e) => Err(e)
  }

  // ---------------------------------------------------------------------------------
  // One component from a map of values.

  /**
   * What `createURIComponent(type, template, Map, encode, sb)` appends: a template without
   * `{` verbatim, otherwise the strict substitution of its normalized form.
   */
  function ComponentFromMap(t: ComponentType, template: string, values: map<string, Option<string>>,
                            encode: bool, codec: Codec): Result<string, UriError>
  {
    if '{' !in template then Ok(template)
    else
      match codec.normalize(template)
      case None => Err(InvalidTemplate(template))
      case Some(norm) => Strict(Tokens(norm), values, Encoder(codec, t, encode))
  }

  /**
   * A path component whose one placeholder has no value throws naming it, whichever
   * encoder is chosen, when the parser leaves the template as it is.
   */
  lemma PathMissingValueThrows(encode: bool, codec: Codec)
    requires codec.normalize("/users/{id}") == Some("/users/{id}")
    ensures ComponentFromMap(Path, "/users/{id}", map[], encode, codec) == Err(NoValue("id"))
  {
    assert "/users/{id}"[7] == '{';
    UriTemplates.StrictMissingValueThrows(Encoder(codec, Path, encode));
  }

  /** Strict substitution copies leading literal text. */
  lemma {:induction false} StrictLits(t: string, rest: seq<Token>, values: map<string, Option<string>>,
                                      enc: string -> string)
    ensures Strict(Lits(t) + rest, values, enc) == AppendTo(t, Strict(rest, values, enc))
  {
    var r := Strict(rest, values, enc);
    if t == [] {
      assert Lits(t) + rest == rest;
      if r.Ok? {
        assert "" + r.value == r.value;
      }
    } else {
      var tail := Lits(t[1..]) + rest;
      assert Lits(t) + rest == [Lit(t[0])] + tail;
      StrictLits(t[1..], rest, values, enc);
      StrictLit(t[0], tail, values, enc);
      assert Strict(Lits(t) + rest, values, enc) == AppendTo([t[0]], AppendTo(t[1..], r));
      AppendToAppendTo([t[0]], t[1..], r);
      assert [t[0]] + t[1..] == t;
    }
  }

  lemma AppendToAppendTo(a: string, b: string, r: Result<string, UriError>)
    ensures AppendTo(a, AppendTo(b, r)) == AppendTo(a + b, r)
  {
    if r.Ok? {
      assert a + (b + r.value) == a + b + r.value;
    }
  }

  /** One literal character in front of the tokens. */
  lemma StrictLit(c: char, toks: seq<Token>, values: map<string, Option<string>>, enc: string -> string)
    ensures Strict([Lit(c)] + toks, values, enc) == AppendTo([c], Strict(toks, values, enc))
  {
    assert ([Lit(c)] + toks)[1..] == toks;
  }

  /** The invariant of the map-based component loop survives one match. */
  lemma StrictFindStep(s: string, i: nat, p: nat, e: nat, values: map<string, Option<string>>,
                       enc: string -> string, b: string)
    requires i <= |s| && Find(s, i) == Some((p, e))
    ensures var n := s[p + 1 .. e - 1];
      AppendTo(b, Strict(TokensFrom(s, i), values, enc))
      == match Get(values, n)
         case None => Err(NoValue(n))
         case Some(x) => AppendTo(b + s[i..p] + enc(x), Strict(TokensFrom(s, e), values, enc))
  {
    FindSplitsTokens(s, i, p, e);
    StrictVarAfterLits(s[i..p], s[p + 1 .. e - 1], TokensFrom(s, e), values, enc, b);
  }

  /** One placeholder in front of the tokens. */
  lemma StrictVar(n: string, toks: seq<Token>, values: map<string, Option<string>>, enc: string -> string)
    ensures Strict([Var(n)] + toks, values, enc)
      == match Get(values, n)
         case None => Err(NoValue(n))
         case Some(x) => AppendTo(enc(x), Strict(toks, values, enc))
  {
    assert ([Var(n)] + toks)[1..] == toks;
  }

  lemma StrictVarAfterLits(lit: string, n: string, tail: seq<Token>, values: map<string, Option<string>>,
                           enc: string -> string, b: string)
    ensures AppendTo(b, Strict(Lits(lit) + ([Var(n)] + tail), values, enc))
      == match Get(values, n)
         case None => Err(NoValue(n))
         case Some(x) => AppendTo(b + lit + enc(x), Strict(tail, values, enc))
  {
    StrictLits(lit, [Var(n)] + tail, values, enc);
    StrictVar(n, tail, values, enc);
    var r := Strict(tail, values, enc);
    match Get(values, n)
    case None =>
    case Some(x) =>
      calc {
        AppendTo(b, AppendTo(lit, AppendTo(enc(x), r)));
        { AppendToAppendTo(lit, enc(x), r); }
        AppendTo(b, AppendTo(lit + enc(x), r));
        { AppendToAppendTo(b, lit + enc(x), r); }
        AppendTo(b + (lit + enc(x)), r);
        { assert b + (lit + enc(x)) == b + lit + enc(x); }
        AppendTo(b + lit + enc(x), r);
      }
  }

  /** No match left: strict substitution copies the rest. */
  lemma StrictFindNone(s: string, i: nat, values: map<string, Option<string>>, enc: string -> string)
    requires i <= |s| && Find(s, i) == None
    ensures Strict(TokensFrom(s, i), values, enc) == Ok(s[i..])
  {
    FindNoneAllLiteral(s, i);
    StrictLits(s[i..], [], values, enc);
    assert Lits(s[i..]) + [] == Lits(s[i..]);
    assert s[i..] + "" == s[i..];
  }

  /**
   * `createURIComponent(type, template, Map, encode, sb)`: appends the component to `b`,
   * or throws naming the first placeholder without a non-null value.
   */
  method AppendComponentFromMap(t: ComponentType, template: string, values: map<string, Option<string>>,
                                encode: bool, codec: Codec, b: string)
    returns (r: Result<string, UriError>)
    ensures r == AppendTo(b, ComponentFromMap(t, template, values, encode, codec))
  {
    if '{' !in template {
      return Ok(b + template);
    }
    var normalized := codec.normalize(template);
    if normalized.None? {
      return Err(InvalidTemplate(template));
    }
    var s := normalized.value;
    var enc := Encoder(codec, t, encode);
    var sb := b;
    var i := 0;
    var found := Find(s, 0);
    assert AppendTo(b, Strict(Tokens(s), values, enc)) == AppendTo(sb, Strict(TokensFrom(s, i), values, enc));
    while found.Some?
      invariant i <= |s| && found == Find(s, i)
      invariant AppendTo(b, Strict(Tokens(s), values, enc)) == AppendTo(sb, Strict(TokensFrom(s, i), values, enc))
      decreases |s| - i
    {
      var (start, end) := found.value;
      var name := s[start + 1 .. end - 1];
      StrictFindStep(s, i, start, end, values, enc, sb);
      var tValue := Get(values, name);
      if tValue.None? {
        return Err(NoValue(name));
      }
      sb := sb + s[i..start] + enc(tValue.value);
      i := end;
      found := Find(s, i);
    }
    StrictFindNone(s, i, values, enc);
    r := Ok(sb + s[i..]);
  }

  // ---------------------------------------------------------------------------------
  // One component from an array of values.

  /**
   * What `createURIComponent(type, template, String[], offset, encode, mapValues, sb)`
   * computes: a template without `{` is appended verbatim and leaves cursor and map
   * alone; otherwise the strict positional substitution of its normalized form.
   */
  function ComponentFromArray(t: ComponentType, template: string, values: seq<Option<string>>,
                              st: Progress, encode: bool, codec: Codec): (r: Result<Progress, UriError>)
    requires 0 <= st.cursor <= |values|
    ensures r.Ok? ==> st.cursor <= r.value.cursor <= |values| && st.text <= r.value.text
    ensures r.Ok? ==> st.seen.Keys <= r.value.seen.Keys && forall n :: n in st.seen ==> r.value.seen[n] == st.seen[n]
    ensures r.Ok? && '{' !in template ==> r.value.cursor == st.cursor && r.value.seen == st.seen
    ensures r.Err? ==> r.error.NoValue? || r.error == InvalidTemplate(template)
  {
    if '{' !in template then Ok(st.(text := st.text + template))
    else
      match codec.normalize(template)
      case None => Err(InvalidTemplate(template))
      case Some(norm) =>
        Prepend(st.text, StrictPositional(Tokens(norm), values, st.cursor, st.seen, Encoder(codec, t, encode)))
  }

  /** Strict positional substitution copies leading literal text. */
  lemma {:induction false} StrictPositionalLits(t: string, rest: seq<Token>, values: seq<Option<string>>,
                                                v: nat, seen: map<string, string>, enc: string -> string)
    requires v <= |values|
    ensures StrictPositional(Lits(t) + rest, values, v, seen, enc)
         == Prepend(t, StrictPositional(rest, values, v, seen, enc))
  {
    if t == [] {
      assert Lits(t) + rest == rest;
      PrependNothing(StrictPositional(rest, values, v, seen, enc));
    } else {
      assert (Lits(t) + rest)[0] == Lit(t[0]);
      assert (Lits(t) + rest)[1..] == Lits(t[1..]) + rest;
      StrictPositionalLits(t[1..], rest, values, v, seen, enc);
      PrependPrepend([t[0]], t[1..], StrictPositional(rest, values, v, seen, enc));
      assert [t[0]] + t[1..] == t;
    }
  }

  /** The next match from `i`, as strict positional substitution sees it. */
  lemma StrictPositionalFindStep(s: string, i: nat, p: nat, e: nat, values: seq<Option<string>>,
                                 v: nat, seen: map<string, string>, enc: string -> string)
    requires i <= |s| && Find(s, i) == Some((p, e)) && v <= |values|
    ensures StrictPositional(TokensFrom(s, i), values, v, seen, enc)
         == Prepend(s[i..p], StrictPositional([Var(s[p + 1 .. e - 1])] + TokensFrom(s, e), values, v, seen, enc))
  {
    FindSplitsTokens(s, i, p, e);
    StrictPositionalLits(s[i..p], [Var(s[p + 1 .. e - 1])] + TokensFrom(s, e), values, v, seen, enc);
  }

  /** No match left: strict positional substitution copies the rest and stops. */
  lemma StrictPositionalFindNone(s: string, i: nat, values: seq<Option<string>>,
                                 v: nat, seen: map<string, string>, enc: string -> string)
    requires i <= |s| && Find(s, i) == None && v <= |values|
    ensures StrictPositional(TokensFrom(s, i), values, v, seen, enc) == Ok(Progress(s[i..], v, seen))
  {
    FindNoneAllLiteral(s, i);
    StrictPositionalLits(s[i..], [], values, v, seen, enc);
    assert Lits(s[i..]) + [] == Lits(s[i..]);
    assert s[i..] + "" == s[i..];
  }

  /**
   * `createURIComponent(type, template, String[], offset, encode, mapValues, sb)`: appends
   * the component, advances the shared cursor and extends the shared map, or throws
   * naming a placeholder whose value is null or missing.
   */
  method AppendComponentFromArray(t: ComponentType, template: string, values: seq<Option<string>>,
                                  st: Progress, encode: bool, codec: Codec)
    returns (r: Result<Progress, UriError>)
    requires 0 <= st.cursor <= |values|
    ensures r == ComponentFromArray(t, template, values, st, encode, codec)
  {
    if '{' !in template {
      return Ok(st.(text := st.text + template));
    }
    var normalized := codec.normalize(template);
    if normalized.None? {
      return Err(InvalidTemplate(template));
    }
    var res := SubstituteFromArray(normalized.value, values, st.cursor, st.seen, Encoder(codec, t, encode));
    r := Prepend(st.text, res);
  }

  /**
   * The `while (m.find())` loop of that method over the normalized template `s`: the
   * text it appends, the cursor it returns and the name map it leaves.
   */
  method SubstituteFromArray(s: string, values: seq<Option<string>>, offset: nat, seen: map<string, string>,
                             enc: string -> string)
    returns (r: Result<Progress, UriError>)
    requires offset <= |values|
    ensures r == StrictPositional(Tokens(s), values, offset, seen, enc)
  {
    var mapValues := seen;
    var b := "";
    var v: nat := offset;
    var i := 0;
    var found := Find(s, 0);
    PrependNothing(StrictPositional(Tokens(s), values, v, mapValues, enc));
    while found.Some?
      invariant i <= |s| && found == Find(s, i) && v <= |values|
      invariant StrictPositional(Tokens(s), values, offset, seen, enc)
             == Prepend(b, StrictPositional(TokensFrom(s, i), values, v, mapValues, enc))
      decreases |s| - i
    {
      var (start, e) := found.value;
      var tVariable := s[start + 1 .. e - 1];
      var lit := s[i..start];
      ghost var tail := TokensFrom(s, e);
      StrictPositionalFindStep(s, i, start, e, values, v, mapValues, enc);
      PrependPrepend(b, lit, StrictPositional([Var(tVariable)] + tail, values, v, mapValues, enc));
      assert ([Var(tVariable)] + tail)[1..] == tail;
      b := b + lit;
      if tVariable in mapValues {
        PrependPrepend(b, mapValues[tVariable], StrictPositional(tail, values, v, mapValues, enc));
        b := b + mapValues[tVariable];
      } else if v < |values| {
        var tValue := values[v];
        v := v + 1;
        if tValue.None? {
          return Err(NoValue(tVariable));
        }
        var encoded := enc(tValue.value);
        PrependPrepend(b, encoded, StrictPositional(tail, values, v, mapValues[tVariable := encoded], enc));
        mapValues := mapValues[tVariable := encoded];
        b := b + encoded;
      } else {
        return Err(NoValue(tVariable));
      }
      i := e;
      found := Find(s, i);
    }
    StrictPositionalFindNone(s, i, values, v, mapValues, enc);
    r := Ok(Progress(b + s[i..], v, mapValues));
  }

  // ---------------------------------------------------------------------------------
  // Assembling a URI from its components.

  /** The eight component templates of one URI; `None` stands for a null argument. */
  datatype Components = Components(
    scheme: Option<string>, authority: Option<string>, userInfo: Option<string>, host: Option<string>,
    port: Option<string>, path: Option<string>, query: Option<string>, fragment: Option<string>)
  {
    /** The template given for a component type. */
    function Of(kind: ComponentType): Option<string> {
      match kind
      case Scheme => scheme
      case Authority => authority
      case UserInfo => userInfo
      case Host => host
      case Port => port
      case Path => path
      case QueryParam => query
      case Fragment => fragment
    }

    /** Whether the URI has a server part (`//`) given by user info, host or port. */
    predicate HasServer() {
      userInfo.Some? || host.Some? || port.Some?
    }
  }

  /** What the builder appends in turn: a fixed separator, or a component template. */
  datatype Part = Sep(text: string) | Component(kind: ComponentType, template: string, encode: bool)

  /** The position of each component type in a URI. */
  function Rank(kind: ComponentType): nat {
    match kind
    case Scheme => 0
    case UserInfo => 1
    case Host => 2
    case Port => 3
    case Authority => 4
    case Path => 5
    case QueryParam => 6
    case Fragment => 7
  }

  /** The component types of `parts`, in order. */
  function Kinds(parts: seq<Part>): seq<ComponentType> {
    if parts == [] then []
    else if parts[0].Component? then [parts[0].kind] + Kinds(parts[1..])
    else Kinds(parts[1..])
  }

  /** A non-null, non-empty argument. */
  predicate Given(x: Option<string>) {
    x.Some? && x.value != ""
  }

  /** The separators each component sits between. */
  predicate InPlace(parts: seq<Part>, i: int)
    requires 0 <= i < |parts| && parts[i].Component?
  {
    match parts[i].kind
    case Scheme => i + 1 < |parts| && parts[i + 1] == Sep(":")
    case UserInfo => 0 < i && parts[i - 1] == Sep("//") && i + 1 < |parts| && parts[i + 1] == Sep("@")
    case Host => 0 < i && (parts[i - 1] == Sep("//") || parts[i - 1] == Sep("@"))
    case Port => 0 < i && parts[i - 1] == Sep(":")
    case Authority => 0 < i && parts[i - 1] == Sep("//")
    case Path => true
    case QueryParam => 0 < i && parts[i - 1] == Sep("?")
    case Fragment => 0 < i && parts[i - 1] == Sep("#")
  }

  /**
   * Every component carries its own template and encoding flag (scheme and port are
   * always contextually encoded), sits between its separators, and components follow
   * the URI order, each at most once.
   */
  predicate WellPlaced(parts: seq<Part>, c: Components, encode: bool) {
    (forall i :: 0 <= i < |parts| && parts[i].Component? ==>
       c.Of(parts[i].kind) == Some(parts[i].template)
       && parts[i].encode == (encode && parts[i].kind != Scheme && parts[i].kind != Port)
       && InPlace(parts, i))
    && (forall i, j :: 0 <= i < j < |parts| && parts[i].Component? && parts[j].Component? ==>
          Rank(parts[i].kind) < Rank(parts[j].kind))
  }

  function SchemeParts(c: Components): seq<Part> {
    if c.scheme.Some? then [Component(Scheme, c.scheme.value, false), Sep(":")] else []
  }

  function ServerParts(c: Components, encode: bool): seq<Part> {
    (if Given(c.userInfo) then [Component(UserInfo, c.userInfo.value, encode), Sep("@")] else [])
    + (if c.host.Some? then [Component(Host, c.host.value, encode)] else [])
    + (if Given(c.port) then [Sep(":"), Component(Port, c.port.value, false)] else [])
  }

  function AuthorityParts(c: Components, encode: bool): seq<Part> {
    if c.HasServer() then [Sep("//")] + ServerParts(c, encode)
    else if c.authority.Some? then [Sep("//"), Component(Authority, c.authority.value, encode)]
    else []
  }

  function PathParts(c: Components, encode: bool): seq<Part> {
    if c.path.Some? then [Component(Path, c.path.value, encode)] else []
  }

  function QueryParts(c: Components, encode: bool): seq<Part> {
    if Given(c.query) then [Sep("?"), Component(QueryParam, c.query.value, encode)] else []
  }

  function FragmentParts(c: Components, encode: bool): seq<Part> {
    if Given(c.fragment) then [Sep("#"), Component(Fragment, c.fragment.value, encode)] else []
  }

  /**
   * The parts `createURI`/`createURIWithStringValues` append for the given components:
   * the scheme followed by `:`; `//` when user info, host or port is given, or else when
   * the authority is; user info (when non-empty) followed by `@`; the host; `:` and the
   * port when non-empty; the path; `?` and the query, `#` and the fragment, when non-empty.
   */
  function Layout(c: Components, encode: bool): seq<Part> {
    SchemeParts(c) + AuthorityParts(c, encode) + PathParts(c, encode) + QueryParts(c, encode)
    + FragmentParts(c, encode)
  }

  lemma {:induction false} KindsAppend(a: seq<Part>, b: seq<Part>)
    ensures Kinds(a + b) == Kinds(a) + Kinds(b)
  {
    if a == [] {
      assert a + b == b;
    } else {
      assert (a + b)[1..] == a[1..] + b;
      KindsAppend(a[1..], b);
    }
  }

  /** A separator contributes no component type. */
  lemma KindsSep(x: string, rest: seq<Part>)
    ensures Kinds([Sep(x)] + rest) == Kinds(rest)
  {
    assert ([Sep(x)] + rest)[1..] == rest;
  }

  /** A component contributes its type. */
  lemma KindsComponent(p: Part, rest: seq<Part>)
    requires p.Component?
    ensures Kinds([p] + rest) == [p.kind] + Kinds(rest)
  {
    assert ([p] + rest)[1..] == rest;
  }

  /** The component types of a separator followed by one component. */
  lemma KindsSepComponent(x: string, p: Part)
    requires p.Component?
    ensures Kinds([Sep(x), p]) == [p.kind]
  {
    KindsSep(x, [p]);
    KindsComponent(p, []);
    assert [Sep(x), p] == [Sep(x)] + [p];
  }

  /** The component types of one component followed by a separator. */
  lemma KindsComponentSep(p: Part, x: string)
    requires p.Component?
    ensures Kinds([p, Sep(x)]) == [p.kind]
  {
    KindsComponent(p, [Sep(x)]);
    KindsSep(x, []);
    assert [p, Sep(x)] == [p] + [Sep(x)];
  }

  /** `[k]` when `b` holds, nothing otherwise. */
  function Optional(b: bool, k: ComponentType): seq<ComponentType> {
    if b then [k] else []
  }

  lemma ServerKinds(c: Components, encode: bool)
    ensures Kinds(ServerParts(c, encode))
         == Optional(Given(c.userInfo), UserInfo) + Optional(c.host.Some?, Host) + Optional(Given(c.port), Port)
  {
    var u := if Given(c.userInfo) then [Component(UserInfo, c.userInfo.value, encode), Sep("@")] else [];
    var h := if c.host.Some? then [Component(Host, c.host.value, encode)] else [];
    var p := if Given(c.port) then [Sep(":"), Component(Port, c.port.value, false)] else [];
    if Given(c.userInfo) {
      KindsComponentSep(u[0], "@");
    }
    if Given(c.port) {
      KindsSepComponent(":", p[1]);
    }
    KindsAppend(u, h);
    KindsAppend(u + h, p);
  }

  lemma AuthorityKinds(c: Components, encode: bool)
    ensures Kinds(AuthorityParts(c, encode))
         == if c.HasServer() then Kinds(ServerParts(c, encode))
            else Optional(c.authority.Some?, Authority)
  {
    if c.HasServer() {
      KindsSep("//", ServerParts(c, encode));
    } else if c.authority.Some? {
      KindsSepComponent("//", Component(Authority, c.authority.value, encode));
    }
  }

  lemma SchemeKinds(c: Components)
    ensures Kinds(SchemeParts(c)) == Optional(c.scheme.Some?, Scheme)
  {
    if c.scheme.Some? {
      KindsComponentSep(SchemeParts(c)[0], ":");
    }
  }

  lemma TailKinds(c: Components, encode: bool)
    ensures Kinds(PathParts(c, encode) + QueryParts(c, encode) + FragmentParts(c, encode))
         == Optional(c.path.Some?, Path) + Optional(Given(c.query), QueryParam) + Optional(Given(c.fragment), Fragment)
  {
    var pa, q, f := PathParts(c, encode), QueryParts(c, encode), FragmentParts(c, encode);
    if Given(c.query) {
      KindsSepComponent("?", q[1]);
    }
    if Given(c.fragment) {
      KindsSepComponent("#", f[1]);
    }
    KindsAppend(pa, q);
    KindsAppend(pa + q, f);
  }

  /** The component types the layout should show, in URI order. */
  function ExpectedKinds(c: Components): seq<ComponentType> {
    Optional(c.scheme.Some?, Scheme)
    + (if c.HasServer()
       then Optional(Given(c.userInfo), UserInfo) + Optional(c.host.Some?, Host) + Optional(Given(c.port), Port)
       else Optional(c.authority.Some?, Authority))
    + (Optional(c.path.Some?, Path) + Optional(Given(c.query), QueryParam) + Optional(Given(c.fragment), Fragment))
  }

  /** The component types of the whole layout, in order. */
  lemma LayoutKindsInOrder(c: Components, encode: bool)
    ensures Kinds(Layout(c, encode)) == ExpectedKinds(c)
  {
    var s, a, t := SchemeParts(c), AuthorityParts(c, encode),
                   PathParts(c, encode) + QueryParts(c, encode) + FragmentParts(c, encode);
    assert Layout(c, encode) == s + a + t;
    SchemeKinds(c);
    ServerKinds(c, encode);
    AuthorityKinds(c, encode);
    TailKinds(c, encode);
    KindsAppend(s, a);
    KindsAppend(s + a, t);
  }

  /**
   * Whether the builder emits a component: the scheme, host and path whenever given; user
   * info, port, query and fragment only when non-empty; the authority only when neither
   * user info, host nor port is given.
   */
  predicate Shown(c: Components, k: ComponentType) {
    match k
    case Scheme => c.scheme.Some?
    case UserInfo => Given(c.userInfo)
    case Host => c.host.Some?
    case Port => Given(c.port)
    case Authority => c.authority.Some? && !c.HasServer()
    case Path => c.path.Some?
    case QueryParam => Given(c.query)
    case Fragment => Given(c.fragment)
  }

  /** The layout holds exactly the components the builder emits. */
  lemma LayoutKinds(c: Components, encode: bool)
    ensures forall k :: k in Kinds(Layout(c, encode)) <==> Shown(c, k)
  {
    LayoutKindsInOrder(c, encode);
    forall k {
      ExpectedKindsMember(c, k);
    }
  }

  lemma ExpectedKindsMember(c: Components, k: ComponentType)
    ensures k in ExpectedKinds(c) <==> Shown(c, k)
  {
    var server := Optional(Given(c.userInfo), UserInfo) + Optional(c.host.Some?, Host) + Optional(Given(c.port), Port);
    var tail := Optional(c.path.Some?, Path) + Optional(Given(c.query), QueryParam) + Optional(Given(c.fragment), Fragment);
    InOptional(k, c.scheme.Some?, Scheme);
    InOptional(k, c.authority.Some?, Authority);
    ServerKindsMember(c, k);
    TailKindsMember(c, k);
    if c.HasServer() {
      assert ExpectedKinds(c) == Optional(c.scheme.Some?, Scheme) + server + tail;
    } else {
      assert ExpectedKinds(c) == Optional(c.scheme.Some?, Scheme) + Optional(c.authority.Some?, Authority) + tail;
    }
  }

  lemma ServerKindsMember(c: Components, k: ComponentType)
    ensures k in Optional(Given(c.userInfo), UserInfo) + Optional(c.host.Some?, Host) + Optional(Given(c.port), Port)
        <==> (k == UserInfo && Given(c.userInfo)) || (k == Host && c.host.Some?) || (k == Port && Given(c.port))
  {
    InOptional(k, Given(c.userInfo), UserInfo);
    InOptional(k, c.host.Some?, Host);
    InOptional(k, Given(c.port), Port);
  }

  lemma TailKindsMember(c: Components, k: ComponentType)
    ensures k in Optional(c.path.Some?, Path) + Optional(Given(c.query), QueryParam) + Optional(Given(c.fragment), Fragment)
        <==> (k == Path && c.path.Some?) || (k == QueryParam && Given(c.query)) || (k == Fragment && Given(c.fragment))
  {
    InOptional(k, c.path.Some?, Path);
    InOptional(k, Given(c.query), QueryParam);
    InOptional(k, Given(c.fragment), Fragment);
  }

  lemma InOptional(k: ComponentType, b: bool, x: ComponentType)
    ensures k in Optional(b, x) <==> b && k == x
  {
  }

  /** Every component of `parts` ranks in `[lo, hi)`. */
  predicate RanksIn(parts: seq<Part>, lo: nat, hi: nat) {
    forall i :: 0 <= i < |parts| && parts[i].Component? ==> lo <= Rank(parts[i].kind) < hi
  }

  /** A component keeps its separators when more parts follow. */
  lemma InPlaceAppendLeft(a: seq<Part>, b: seq<Part>, i: int)
    requires 0 <= i < |a| && a[i].Component? && InPlace(a, i)
    ensures InPlace(a + b, i)
  {
    if i + 1 < |a| {
      assert (a + b)[i + 1] == a[i + 1];
    }
    if 0 < i {
      assert (a + b)[i - 1] == a[i - 1];
    }
  }

  /** A component keeps its separators when more parts precede. */
  lemma InPlaceAppendRight(a: seq<Part>, b: seq<Part>, j: int)
    requires 0 <= j < |b| && b[j].Component? && InPlace(b, j)
    ensures InPlace(a + b, |a| + j)
  {
    if j + 1 < |b| {
      assert (a + b)[|a| + j + 1] == b[j + 1];
    }
    if 0 < j {
      assert (a + b)[|a| + j - 1] == b[j - 1];
    }
  }

  /** Well-placed groups of increasing rank concatenate to a well-placed sequence. */
  lemma WellPlacedAppend(a: seq<Part>, b: seq<Part>, c: Components, encode: bool, lo: nat, mid: nat, hi: nat)
    requires WellPlaced(a, c, encode) && WellPlaced(b, c, encode)
    requires lo <= mid <= hi && RanksIn(a, lo, mid) && RanksIn(b, mid, hi)
    ensures WellPlaced(a + b, c, encode) && RanksIn(a + b, lo, hi)
  {
    var ab := a + b;
    forall i | 0 <= i < |ab| && ab[i].Component?
      ensures c.Of(ab[i].kind) == Some(ab[i].template)
      ensures ab[i].encode == (encode && ab[i].kind != Scheme && ab[i].kind != Port)
      ensures InPlace(ab, i) && lo <= Rank(ab[i].kind) < hi
    {
      if i < |a| {
        InPlaceAppendLeft(a, b, i);
      } else {
        assert ab[i] == b[i - |a|];
        InPlaceAppendRight(a, b, i - |a|);
      }
    }
  }

  lemma SchemeWellPlaced(c: Components, encode: bool)
    ensures WellPlaced(SchemeParts(c), c, encode) && RanksIn(SchemeParts(c), 0, 1)
  {
  }

  /** `//`, then user info followed by `@` when non-empty, then the host when given. */
  lemma ServerFrontWellPlaced(c: Components, encode: bool)
    ensures var u := if Given(c.userInfo) then [Component(UserInfo, c.userInfo.value, encode), Sep("@")] else [];
      var h := if c.host.Some? then [Component(Host, c.host.value, encode)] else [];
      WellPlaced([Sep("//")] + u + h, c, encode) && RanksIn([Sep("//")] + u + h, 1, 3)
  {
    if Given(c.userInfo) {
      var u := [Component(UserInfo, c.userInfo.value, encode), Sep("@")];
      if c.host.Some? {
        var h := [Component(Host, c.host.value, encode)];
        assert [Sep("//")] + u + h == [Sep("//"), u[0], Sep("@"), h[0]];
      } else {
        assert [Sep("//")] + u + [] == [Sep("//"), u[0], Sep("@")];
      }
    } else if c.host.Some? {
      var h := [Component(Host, c.host.value, encode)];
      assert [Sep("//")] + [] + h == [Sep("//"), h[0]];
    }
  }

  lemma ServerWellPlaced(c: Components, encode: bool)
    ensures WellPlaced([Sep("//")] + ServerParts(c, encode), c, encode)
    ensures RanksIn([Sep("//")] + ServerParts(c, encode), 1, 4)
  {
    var u := if Given(c.userInfo) then [Component(UserInfo, c.userInfo.value, encode), Sep("@")] else [];
    var h := if c.host.Some? then [Component(Host, c.host.value, encode)] else [];
    var p := if Given(c.port) then [Sep(":"), Component(Port, c.port.value, false)] else [];
    var front := [Sep("//")] + u + h;
    assert [Sep("//")] + ServerParts(c, encode) == front + p;
    ServerFrontWellPlaced(c, encode);
    assert WellPlaced(p, c, encode) && RanksIn(p, 3, 4);
    WellPlacedAppend(front, p, c, encode, 1, 3, 4);
  }

  lemma AuthorityWellPlaced(c: Components, encode: bool)
    ensures WellPlaced(AuthorityParts(c, encode), c, encode) && RanksIn(AuthorityParts(c, encode), 1, 5)
  {
    if c.HasServer() {
      ServerWellPlaced(c, encode);
    }
  }

  lemma TailWellPlaced(c: Components, encode: bool)
    ensures var t := PathParts(c, encode) + QueryParts(c, encode) + FragmentParts(c, encode);
      WellPlaced(t, c, encode) && RanksIn(t, 5, 8)
  {
    var pa, q, f := PathParts(c, encode), QueryParts(c, encode), FragmentParts(c, encode);
    assert WellPlaced(pa, c, encode) && RanksIn(pa, 5, 6);
    assert WellPlaced(q, c, encode) && RanksIn(q, 6, 7);
    assert WellPlaced(f, c, encode) && RanksIn(f, 7, 8);
    WellPlacedAppend(pa, q, c, encode, 5, 6, 7);
    WellPlacedAppend(pa + q, f, c, encode, 5, 7, 8);
  }

  /**
   * Every emitted component carries its own template, is encoded as asked (scheme and port
   * never strictly), sits between its separators, and follows URI order, each at most once.
   */
  lemma LayoutWellPlaced(c: Components, encode: bool)
    ensures WellPlaced(Layout(c, encode), c, encode)
  {
    var s, a := SchemeParts(c), AuthorityParts(c, encode);
    var t := PathParts(c, encode) + QueryParts(c, encode) + FragmentParts(c, encode);
    assert Layout(c, encode) == s + a + t;
    SchemeWellPlaced(c, encode);
    AuthorityWellPlaced(c, encode);
    TailWellPlaced(c, encode);
    WellPlacedAppend(s, a, c, encode, 0, 1, 5);
    WellPlacedAppend(s + a, t, c, encode, 0, 5, 8);
  }

  /** `//`, `?` and `#` appear exactly when an authority part, a query or a fragment is emitted. */
  lemma LayoutSeparators(c: Components, encode: bool)
    ensures Sep("//") in Layout(c, encode) <==> c.HasServer() || c.authority.Some?
    ensures Sep("?") in Layout(c, encode) <==> Given(c.query)
    ensures Sep("#") in Layout(c, encode) <==> Given(c.fragment)
  {
    var s, a := SchemeParts(c), AuthorityParts(c, encode);
    var pa, q, f := PathParts(c, encode), QueryParts(c, encode), FragmentParts(c, encode);
    assert Layout(c, encode) == s + a + pa + q + f;
    assert Sep("//") !in s && Sep("//") !in pa && Sep("//") !in q && Sep("//") !in f;
    assert Sep("?") !in s && Sep("?") !in pa && Sep("?") !in f;
    assert Sep("#") !in s && Sep("#") !in pa && Sep("#") !in q;
    ServerSeparators(c, encode);
  }

  /** The authority part holds `//` exactly when it is not empty, and never `?` or `#`. */
  lemma ServerSeparators(c: Components, encode: bool)
    ensures Sep("//") in AuthorityParts(c, encode) <==> c.HasServer() || c.authority.Some?
    ensures Sep("?") !in AuthorityParts(c, encode) && Sep("#") !in AuthorityParts(c, encode)
  {
    var u := if Given(c.userInfo) then [Component(UserInfo, c.userInfo.value, encode), Sep("@")] else [];
    var h := if c.host.Some? then [Component(Host, c.host.value, encode)] else [];
    var p := if Given(c.port) then [Sep(":"), Component(Port, c.port.value, false)] else [];
    assert ServerParts(c, encode) == u + h + p;
    assert Sep("?") !in u + h + p && Sep("#") !in u + h + p;
  }

  // ---------------------------------------------------------------------------------
  // Rendering a layout from a map of values.

  /** What one part appends to `b`. */
  function StepFromMap(part: Part, values: map<string, Option<string>>, codec: Codec, b: string)
    : Result<string, UriError>
  {
    match part
    case Sep(x) => Ok(b + x)
    case Component(k, template, encode) => AppendTo(b, ComponentFromMap(k, template, values, encode, codec))
  }

  /** The parts appended in turn to `b`; the first failing component ends the build. */
  function RenderFromMap(parts: seq<Part>, values: map<string, Option<string>>, codec: Codec, b: string)
    : Result<string, UriError>
    decreases |parts|
  {
    if parts == [] then Ok(b)
    else
      match StepFromMap(parts[0], values, codec, b)
      case Err(e) => Err(e)
      case Ok(b') => RenderFromMap(parts[1..], values, codec, b')
  }

  /** Rendering continues from a successful prefix and stops at a failed one. */
  function ThenFromMap(r: Result<string, UriError>, parts: seq<Part>, values: map<string, Option<string>>,
                       codec: Codec): Result<string, UriError>
  {
    match r
    case Err(e) => Err(e)
    case Ok(b) => RenderFromMap(parts, values, codec, b)
  }

  lemma {:induction false} RenderFromMapAppend(a: seq<Part>, b: seq<Part>, values: map<string, Option<string>>,
                                               codec: Codec, x: string)
    ensures RenderFromMap(a + b, values, codec, x) == ThenFromMap(RenderFromMap(a, values, codec, x), b, values, codec)
    decreases |a|
  {
    if a == [] {
      assert a + b == b;
    } else {
      assert (a + b)[0] == a[0];
      assert (a + b)[1..] == a[1..] + b;
      var st := StepFromMap(a[0], values, codec, x);
      if st.Ok? {
        RenderFromMapAppend(a[1..], b, values, codec, st.value);
      }
    }
  }

  /** A component alone, then a separator. */
  lemma RenderComponentSep(p: Part, sep: string, values: map<string, Option<string>>, codec: Codec, b: string)
    requires p.Component?
    ensures var x := StepFromMap(p, values, codec, b);
      RenderFromMap([p, Sep(sep)], values, codec, b) == if x.Err? then x else Ok(x.value + sep)
  {
    var x := StepFromMap(p, values, codec, b);
    assert [p, Sep(sep)][1..] == [Sep(sep)];
    assert [Sep(sep)][1..] == [];
    if x.Ok? {
      assert RenderFromMap([p, Sep(sep)], values, codec, b) == RenderFromMap([Sep(sep)], values, codec, x.value);
      assert RenderFromMap([Sep(sep)], values, codec, x.value) == RenderFromMap([], values, codec, x.value + sep);
    }
  }

  /** A component alone. */
  lemma RenderOne(p: Part, values: map<string, Option<string>>, codec: Codec, b: string)
    requires p.Component?
    ensures RenderFromMap([p], values, codec, b) == StepFromMap(p, values, codec, b)
  {
    assert [p][1..] == [];
  }

  /** A separator, then a component. */
  lemma RenderSepComponent(sep: string, p: Part, values: map<string, Option<string>>, codec: Codec, b: string)
    requires p.Component?
    ensures RenderFromMap([Sep(sep), p], values, codec, b) == StepFromMap(p, values, codec, b + sep)
  {
    assert [Sep(sep), p][1..] == [p];
    RenderOne(p, values, codec, b + sep);
  }

  /** The `scheme` block of the map-based builder. */
  method AppendSchemeFromMap(c: Components, values: map<string, Option<string>>, codec: Codec, b: string)
    returns (r: Result<string, UriError>)
    ensures r == RenderFromMap(SchemeParts(c), values, codec, b)
  {
    r := Ok(b);
    if c.scheme.Some? {
      r := AppendComponentFromMap(Scheme, c.scheme.value, values, false, codec, b);
      RenderComponentSep(Component(Scheme, c.scheme.value, false), ":", values, codec, b);
      if r.Ok? {
        r := Ok(r.value + ":");
      }
    }
  }

  /** The user info, host and port of the map-based builder, after `//`. */
  method AppendServerFromMap(c: Components, values: map<string, Option<string>>, encode: bool, codec: Codec,
                             b: string)
    returns (r: Result<string, UriError>)
    ensures r == RenderFromMap(ServerParts(c, encode), values, codec, b)
  {
    var u := if Given(c.userInfo) then [Component(UserInfo, c.userInfo.value, encode), Sep("@")] else [];
    var h := if c.host.Some? then [Component(Host, c.host.value, encode)] else [];
    var p := if Given(c.port) then [Sep(":"), Component(Port, c.port.value, false)] else [];
    RenderFromMapAppend(u + h, p, values, codec, b);
    RenderFromMapAppend(u, h, values, codec, b);
    var sb := b;
    if c.userInfo.Some? && |c.userInfo.value| > 0 {
      var x := AppendComponentFromMap(UserInfo, c.userInfo.value, values, encode, codec, sb);
      RenderComponentSep(u[0], "@", values, codec, sb);
      if x.Err? {
        return x;
      }
      sb := x.value + "@";
    }
    assert RenderFromMap(u, values, codec, b) == Ok(sb);
    if c.host.Some? {
      var x := AppendComponentFromMap(Host, c.host.value, values, encode, codec, sb);
      RenderOne(h[0], values, codec, sb);
      if x.Err? {
        return x;
      }
      sb := x.value;
    }
    assert RenderFromMap(u + h, values, codec, b) == Ok(sb);
    if c.port.Some? && |c.port.value| > 0 {
      sb := sb + ":";
      RenderSepComponent(":", p[1], values, codec, sb[..|sb| - 1]);
      assert sb[..|sb| - 1] + ":" == sb;
      r := AppendComponentFromMap(Port, c.port.value, values, false, codec, sb);
    } else {
      r := Ok(sb);
    }
  }

  /** The authority block of the map-based builder. */
  method AppendAuthorityFromMap(c: Components, values: map<string, Option<string>>, encode: bool, codec: Codec,
                                b: string)
    returns (r: Result<string, UriError>)
    ensures r == RenderFromMap(AuthorityParts(c, encode), values, codec, b)
  {
    if c.userInfo.Some? || c.host.Some? || c.port.Some? {
      assert ([Sep("//")] + ServerParts(c, encode))[1..] == ServerParts(c, encode);
      r := AppendServerFromMap(c, values, encode, codec, b + "//");
    } else if c.authority.Some? {
      RenderSepComponent("//", Component(Authority, c.authority.value, encode), values, codec, b);
      r := AppendComponentFromMap(Authority, c.authority.value, values, encode, codec, b + "//");
    } else {
      r := Ok(b);
    }
  }

  /** The path, query and fragment blocks of the map-based builder. */
  method AppendTailFromMap(c: Components, values: map<string, Option<string>>, encode: bool, codec: Codec,
                           b: string)
    returns (r: Result<string, UriError>)
    ensures r == RenderFromMap(PathParts(c, encode) + QueryParts(c, encode) + FragmentParts(c, encode),
                               values, codec, b)
  {
    var pa, q, f := PathParts(c, encode), QueryParts(c, encode), FragmentParts(c, encode);
    RenderFromMapAppend(pa + q, f, values, codec, b);
    RenderFromMapAppend(pa, q, values, codec, b);
    var sb := b;
    if c.path.Some? {
      var x := AppendComponentFromMap(Path, c.path.value, values, encode, codec, sb);
      RenderOne(pa[0], values, codec, sb);
      if x.Err? {
        return x;
      }
      sb := x.value;
    }
    assert RenderFromMap(pa, values, codec, b) == Ok(sb);
    if c.query.Some? && |c.query.value| > 0 {
      RenderSepComponent("?", q[1], values, codec, sb);
      var x := AppendComponentFromMap(QueryParam, c.query.value, values, encode, codec, sb + "?");
      if x.Err? {
        return x;
      }
      sb := x.value;
    }
    assert RenderFromMap(pa + q, values, codec, b) == Ok(sb);
    if c.fragment.Some? && |c.fragment.value| > 0 {
      RenderSepComponent("#", f[1], values, codec, sb);
      r := AppendComponentFromMap(Fragment, c.fragment.value, values, encode, codec, sb + "#");
    } else {
      r := Ok(sb);
    }
  }

  /** Rendering the layout is rendering its scheme, authority and tail blocks in turn. */
  lemma RenderLayoutFromMap(c: Components, values: map<string, Option<string>>, encode: bool, codec: Codec)
    ensures RenderFromMap(Layout(c, encode), values, codec, "")
         == ThenFromMap(ThenFromMap(RenderFromMap(SchemeParts(c), values, codec, ""), AuthorityParts(c, encode),
                                    values, codec),
                        PathParts(c, encode) + QueryParts(c, encode) + FragmentParts(c, encode), values, codec)
  {
    var s, a := SchemeParts(c), AuthorityParts(c, encode);
    var p, q, f := PathParts(c, encode), QueryParts(c, encode), FragmentParts(c, encode);
    RegroupParts(s, a, p, q, f);
    RenderThreeFromMap(s, a, p + q + f, values, codec);
  }

  lemma RegroupParts(s: seq<Part>, a: seq<Part>, p: seq<Part>, q: seq<Part>, f: seq<Part>)
    ensures s + a + p + q + f == s + a + (p + q + f)
  {
  }

  lemma RenderThreeFromMap(s: seq<Part>, a: seq<Part>, t: seq<Part>, values: map<string, Option<string>>,
                           codec: Codec)
    ensures RenderFromMap(s + a + t, values, codec, "")
         == ThenFromMap(ThenFromMap(RenderFromMap(s, values, codec, ""), a, values, codec), t, values, codec)
  {
    RenderFromMapAppend(s + a, t, values, codec, "");
    RenderFromMapAppend(s, a, values, codec, "");
  }

  /**
   * `createURIWithStringValues(scheme, authority, userInfo, host, port, path, query,
   * fragment, Map, encode)`: the URI built from the layout of the given components.
   */
  method CreateUriFromMap(c: Components, values: map<string, Option<string>>, encode: bool, codec: Codec)
    returns (r: Result<string, UriError>)
    ensures r == RenderFromMap(Layout(c, encode), values, codec, "")
  {
    RenderLayoutFromMap(c, values, encode, codec);
    var sb := AppendSchemeFromMap(c, values, codec, "");
    if sb.Err? {
      return sb;
    }
    sb := AppendAuthorityFromMap(c, values, encode, codec, sb.value);
    if sb.Err? {
      return sb;
    }
    r := AppendTailFromMap(c, values, encode, codec, sb.value);
  }

  // ---------------------------------------------------------------------------------
  // Rendering a layout from an array of values.

  /** What one part does to the builder's text, cursor and name map. */
  function StepFromArray(part: Part, values: seq<Option<string>>, codec: Codec, st: Progress)
    : (r: Result<Progress, UriError>)
    requires 0 <= st.cursor <= |values|
    ensures r.Ok? ==> st.cursor <= r.value.cursor <= |values|
  {
    match part
    case Sep(x) => Ok(st.(text := st.text + x))
    case Component(k, template, encode) => ComponentFromArray(k, template, values, st, encode, codec)
  }

  /**
   * The parts applied in turn, sharing one cursor into `values` and one map from names to
   * encoded values; the first failing component ends the build. On success the cursor has
   * only moved forward within the array, earlier bindings are kept and text only grows.
   */
  function RenderFromArray(parts: seq<Part>, values: seq<Option<string>>, codec: Codec, st: Progress)
    : (r: Result<Progress, UriError>)
    requires 0 <= st.cursor <= |values|
    ensures r.Ok? ==> st.cursor <= r.value.cursor <= |values| && st.text <= r.value.text
    ensures r.Ok? ==> st.seen.Keys <= r.value.seen.Keys && forall n :: n in st.seen ==> r.value.seen[n] == st.seen[n]
    decreases |parts|
  {
    if parts == [] then Ok(st)
    else
      match StepFromArray(parts[0], values, codec, st)
      case Err(e) => Err(e)
      case Ok(st') => RenderFromArray(parts[1..], values, codec, st')
  }

  /** Rendering continues from a successful prefix and stops at a failed one. */
  function ThenFromArray(r: Result<Progress, UriError>, parts: seq<Part>, values: seq<Option<string>>, codec: Codec)
    : Result<Progress, UriError>
    requires r.Ok? ==> 0 <= r.value.cursor <= |values|
  {
    match r
    case Err(e) => Err(e)
    case Ok(st) => RenderFromArray(parts, values, codec, st)
  }

  lemma {:induction false} RenderFromArrayAppend(a: seq<Part>, b: seq<Part>, values: seq<Option<string>>,
                                                 codec: Codec, st: Progress)
    requires 0 <= st.cursor <= |values|
    ensures RenderFromArray(a + b, values, codec, st)
         == ThenFromArray(RenderFromArray(a, values, codec, st), b, values, codec)
    decreases |a|
  {
    if a == [] {
      assert a + b == b;
    } else {
      assert (a + b)[0] == a[0];
      assert (a + b)[1..] == a[1..] + b;
      var x := StepFromArray(a[0], values, codec, st);
      if x.Ok? {
        RenderFromArrayAppend(a[1..], b, values, codec, x.value);
      }
    }
  }

  lemma RenderArrayOne(p: Part, values: seq<Option<string>>, codec: Codec, st: Progress)
    requires p.Component? && 0 <= st.cursor <= |values|
    ensures RenderFromArray([p], values, codec, st) == StepFromArray(p, values, codec, st)
  {
    assert [p][1..] == [];
  }

  lemma RenderArrayComponentSep(p: Part, sep: string, values: seq<Option<string>>, codec: Codec, st: Progress)
    requires p.Component? && 0 <= st.cursor <= |values|
    ensures var x := StepFromArray(p, values, codec, st);
      RenderFromArray([p, Sep(sep)], values, codec, st)
      == if x.Err? then x else Ok(x.value.(text := x.value.text + sep))
  {
    var x := StepFromArray(p, values, codec, st);
    assert [p, Sep(sep)][1..] == [Sep(sep)];
    assert [Sep(sep)][1..] == [];
    if x.Ok? {
      assert RenderFromArray([p, Sep(sep)], values, codec, st) == RenderFromArray([Sep(sep)], values, codec, x.value);
    }
  }

  lemma RenderArraySepComponent(sep: string, p: Part, values: seq<Option<string>>, codec: Codec, st: Progress)
    requires p.Component? && 0 <= st.cursor <= |values|
    ensures RenderFromArray([Sep(sep), p], values, codec, st)
         == StepFromArray(p, values, codec, st.(text := st.text + sep))
  {
    assert [Sep(sep), p][1..] == [p];
    RenderArrayOne(p, values, codec, st.(text := st.text + sep));
  }

  /** The `scheme` block of the array-based builder. */
  method AppendSchemeFromArray(c: Components, values: seq<Option<string>>, codec: Codec, st: Progress)
    returns (r: Result<Progress, UriError>)
    requires 0 <= st.cursor <= |values|
    ensures r == RenderFromArray(SchemeParts(c), values, codec, st)
  {
    r := Ok(st);
    if c.scheme.Some? {
      r := AppendComponentFromArray(Scheme, c.scheme.value, values, st, false, codec);
      RenderArrayComponentSep(Component(Scheme, c.scheme.value, false), ":", values, codec, st);
      if r.Ok? {
        r := Ok(r.value.(text := r.value.text + ":"));
      }
    }
  }

  /** The user info, host and port of the array-based builder, after `//`. */
  method AppendServerFromArray(c: Components, values: seq<Option<string>>, encode: bool, codec: Codec,
                               st: Progress)
    returns (r: Result<Progress, UriError>)
    requires 0 <= st.cursor <= |values|
    ensures r == RenderFromArray(ServerParts(c, encode), values, codec, st)
  {
    var u := if Given(c.userInfo) then [Component(UserInfo, c.userInfo.value, encode), Sep("@")] else [];
    var h := if c.host.Some? then [Component(Host, c.host.value, encode)] else [];
    var p := if Given(c.port) then [Sep(":"), Component(Port, c.port.value, false)] else [];
    RenderFromArrayAppend(u + h, p, values, codec, st);
    RenderFromArrayAppend(u, h, values, codec, st);
    var cur := st;
    if c.userInfo.Some? && |c.userInfo.value| > 0 {
      var x := AppendComponentFromArray(UserInfo, c.userInfo.value, values, cur, encode, codec);
      RenderArrayComponentSep(u[0], "@", values, codec, cur);
      if x.Err? {
        return x;
      }
      cur := x.value.(text := x.value.text + "@");
    }
    assert RenderFromArray(u, values, codec, st) == Ok(cur);
    if c.host.Some? {
      var x := AppendComponentFromArray(Host, c.host.value, values, cur, encode, codec);
      RenderArrayOne(h[0], values, codec, cur);
      if x.Err? {
        return x;
      }
      cur := x.value;
    }
    assert RenderFromArray(u + h, values, codec, st) == Ok(cur);
    if c.port.Some? && |c.port.value| > 0 {
      RenderArraySepComponent(":", p[1], values, codec, cur);
      r := AppendComponentFromArray(Port, c.port.value, values, cur.(text := cur.text + ":"), false, codec);
    } else {
      r := Ok(cur);
    }
  }

  /** The authority block of the array-based builder. */
  method AppendAuthorityFromArray(c: Components, values: seq<Option<string>>, encode: bool, codec: Codec,
                                  st: Progress)
    returns (r: Result<Progress, UriError>)
    requires 0 <= st.cursor <= |values|
    ensures r == RenderFromArray(AuthorityParts(c, encode), values, codec, st)
  {
    if c.userInfo.Some? || c.host.Some? || c.port.Some? {
      assert ([Sep("//")] + ServerParts(c, encode))[1..] == ServerParts(c, encode);
      r := AppendServerFromArray(c, values, encode, codec, st.(text := st.text + "//"));
    } else if c.authority.Some? {
      RenderArraySepComponent("//", Component(Authority, c.authority.value, encode), values, codec, st);
      r := AppendComponentFromArray(Authority, c.authority.value, values, st.(text := st.text + "//"), encode, codec);
    } else {
      r := Ok(st);
    }
  }

  /** The path, query and fragment blocks of the array-based builder. */
  method AppendTailFromArray(c: Components, values: seq<Option<string>>, encode: bool, codec: Codec,
                             st: Progress)
    returns (r: Result<Progress, UriError>)
    requires 0 <= st.cursor <= |values|
    ensures r == RenderFromArray(PathParts(c, encode) + QueryParts(c, encode) + FragmentParts(c, encode),
                                 values, codec, st)
  {
    var pa, q, f := PathParts(c, encode), QueryParts(c, encode), FragmentParts(c, encode);
    RenderFromArrayAppend(pa + q, f, values, codec, st);
    RenderFromArrayAppend(pa, q, values, codec, st);
    var cur := st;
    if c.path.Some? {
      var x := AppendComponentFromArray(Path, c.path.value, values, cur, encode, codec);
      RenderArrayOne(pa[0], values, codec, cur);
      if x.Err? {
        return x;
      }
      cur := x.value;
    }
    assert RenderFromArray(pa, values, codec, st) == Ok(cur);
    if c.query.Some? && |c.query.value| > 0 {
      RenderArraySepComponent("?", q[1], values, codec, cur);
      var x := AppendComponentFromArray(QueryParam, c.query.value, values, cur.(text := cur.text + "?"), encode, codec);
      if x.Err? {
        return x;
      }
      cur := x.value;
    }
    assert RenderFromArray(pa + q, values, codec, st) == Ok(cur);
    if c.fragment.Some? && |c.fragment.value| > 0 {
      RenderArraySepComponent("#", f[1], values, codec, cur);
      r := AppendComponentFromArray(Fragment, c.fragment.value, values, cur.(text := cur.text + "#"), encode, codec);
    } else {
      r := Ok(cur);
    }
  }

  /** The builder's starting state: empty text, cursor 0, no names bound. */
  function Start(): Progress {
    Progress("", 0, map[])
  }

  /**
   * `createURIWithStringValues(scheme, authority, userInfo, host, port, path, query,
   * fragment, String[], encode)`: the URI built from the layout of the given components,
   * all components drawing on one array and one map of bound names.
   */
  method CreateUriFromArray(c: Components, values: seq<Option<string>>, encode: bool, codec: Codec)
    returns (r: Result<string, UriError>)
    ensures r == TextOf(RenderFromArray(Layout(c, encode), values, codec, Start()))
  {
    var s, a := SchemeParts(c), AuthorityParts(c, encode);
    var t := PathParts(c, encode) + QueryParts(c, encode) + FragmentParts(c, encode);
    assert Layout(c, encode) == s + a + t;
    RenderFromArrayAppend(s + a, t, values, codec, Start());
    RenderFromArrayAppend(s, a, values, codec, Start());
    var st := AppendSchemeFromArray(c, values, codec, Start());
    if st.Err? {
      return Err(st.error);
    }
    st := AppendAuthorityFromArray(c, values, encode, codec, st.value);
    if st.Err? {
      return Err(st.error);
    }
    st := AppendTailFromArray(c, values, encode, codec, st.value);
    r := TextOf(st);
  }

  // ---------------------------------------------------------------------------------
  // Properties of whole-URI assembly.

  /** A component that the map-based builder can render: its template parses and every name has a value. */
  predicate Resolvable(part: Part, values: map<string, Option<string>>, codec: Codec) {
    part.Component? && '{' in part.template ==>
      codec.normalize(part.template).Some?
      && forall n :: n in Names(Tokens(codec.normalize(part.template).value)) ==> Get(values, n).Some?
  }

  /** The map-based builder succeeds exactly when every component is resolvable. */
  lemma {:induction false} RenderFromMapSucceeds(parts: seq<Part>, values: map<string, Option<string>>,
                                                 codec: Codec, b: string)
    ensures RenderFromMap(parts, values, codec, b).Ok?
        <==> forall i :: 0 <= i < |parts| ==> Resolvable(parts[i], values, codec)
    decreases |parts|
  {
    if parts != [] {
      var x := StepFromMap(parts[0], values, codec, b);
      assert x.Ok? <==> Resolvable(parts[0], values, codec);
      if x.Ok? {
        RenderFromMapSucceeds(parts[1..], values, codec, x.value);
        assert forall i :: 0 < i < |parts| ==> parts[i] == parts[1..][i - 1];
      }
    }
  }

  /**
   * `createURI(..., Map, encode)` with a map of objects: the map without its null entries,
   * as handed on to `createURIWithStringValues`.
   */
  function DropNulls(values: map<string, Option<string>>): (m: map<string, Option<string>>)
    ensures forall k :: k in m <==> k in values && values[k].Some?
    ensures forall k :: k in m ==> m[k] == values[k]
  {
    map k | k in values && values[k].Some? :: values[k]
  }

  lemma {:induction false} StrictSameLookups(toks: seq<Token>, v1: map<string, Option<string>>,
                                             v2: map<string, Option<string>>, enc: string -> string)
    requires forall n :: Get(v1, n) == Get(v2, n)
    ensures Strict(toks, v1, enc) == Strict(toks, v2, enc)
  {
    if toks != [] {
      StrictSameLookups(toks[1..], v1, v2, enc);
    }
  }

  /** The map-based builder only sees a map through its lookups. */
  lemma {:induction false} RenderFromMapSameLookups(parts: seq<Part>, v1: map<string, Option<string>>,
                                                    v2: map<string, Option<string>>, codec: Codec, b: string)
    requires forall n :: Get(v1, n) == Get(v2, n)
    ensures RenderFromMap(parts, v1, codec, b) == RenderFromMap(parts, v2, codec, b)
    decreases |parts|
  {
    if parts != [] {
      var p := parts[0];
      if p.Component? && '{' in p.template && codec.normalize(p.template).Some? {
        StrictSameLookups(Tokens(codec.normalize(p.template).value), v1, v2, Encoder(codec, p.kind, p.encode));
      }
      var x := StepFromMap(p, v1, codec, b);
      if x.Ok? {
        RenderFromMapSameLookups(parts[1..], v1, v2, codec, x.value);
      }
    }
  }

  /**
   * `createURI(scheme, authority, userInfo, host, port, path, query, fragment, Map, encode)`:
   * null entries are dropped before building, which changes nothing, since a null value
   * and a missing key both make the placeholder unresolvable.
   */
  method CreateUriFromObjectMap(c: Components, values: map<string, Option<string>>, encode: bool, codec: Codec)
    returns (r: Result<string, UriError>)
    ensures r == RenderFromMap(Layout(c, encode), values, codec, "")
  {
    var stringValues := DropNulls(values);
    assert forall n :: Get(stringValues, n) == Get(values, n);
    RenderFromMapSameLookups(Layout(c, encode), stringValues, values, codec, "");
    r := CreateUriFromMap(c, stringValues, encode, codec);
  }

  lemma NestedDifference(k0: set<string>, k1: set<string>, k2: set<string>)
    requires k0 <= k1 <= k2
    ensures |k2 - k0| == |k2 - k1| + |k1 - k0|
  {
    assert k2 - k0 == (k2 - k1) + (k1 - k0);
    assert (k2 - k1) * (k1 - k0) == {};
  }

  /** One component consumes exactly one value per name it binds. */
  lemma ComponentFromArrayConsumes(t: ComponentType, template: string, values: seq<Option<string>>,
                                   st: Progress, encode: bool, codec: Codec)
    requires 0 <= st.cursor <= |values|
    ensures var r := ComponentFromArray(t, template, values, st, encode, codec);
      r.Ok? ==> |r.value.seen.Keys - st.seen.Keys| == r.value.cursor - st.cursor
  {
    if '{' !in template {
      assert st.seen.Keys - st.seen.Keys == {};
    } else {
      match codec.normalize(template)
      case None =>
      case Some(norm) =>
        var enc := Encoder(codec, t, encode);
        StrictPositionalConsumesOncePerName(Tokens(norm), values, st.cursor, st.seen, enc);
        assert ComponentFromArray(t, template, values, st, encode, codec)
            == Prepend(st.text, StrictPositional(Tokens(norm), values, st.cursor, st.seen, enc));
    }
  }

  /**
   * Across all components, the array-based builder consumes exactly one value per distinct
   * name: a name repeated in a later component reuses the value bound earlier.
   */
  lemma {:induction false} RenderFromArrayConsumesOncePerName(parts: seq<Part>, values: seq<Option<string>>,
                                                              codec: Codec, st: Progress)
    requires 0 <= st.cursor <= |values|
    ensures var r := RenderFromArray(parts, values, codec, st);
      r.Ok? ==> |r.value.seen.Keys - st.seen.Keys| == r.value.cursor - st.cursor
    decreases |parts|
  {
    if parts == [] {
      assert st.seen.Keys - st.seen.Keys == {};
    } else {
      var x := StepFromArray(parts[0], values, codec, st);
      if x.Ok? {
        if parts[0].Component? {
          ComponentFromArrayConsumes(parts[0].kind, parts[0].template, values, st, parts[0].encode, codec);
        } else {
          assert x.value.seen.Keys - st.seen.Keys == {};
        }
        RenderFromArrayConsumesOncePerName(parts[1..], values, codec, x.value);
        var r := RenderFromArray(parts[1..], values, codec, x.value);
        if r.Ok? {
          NestedDifference(st.seen.Keys, x.value.seen.Keys, r.value.seen.Keys);
        }
      }
    }
  }
}
