/**
 * What the four substitution loops of a URI template compute, stated over the token
 * sequence of the scanned template: lenient substitution from a map, positional
 * substitution with reuse of repeated names, and the two strict, component-aware forms.
 */
module Substitution {
  import opened Results
  import opened Placeholders

  /** The exceptions the substitution loops can throw. */
  datatype UriError =
    | IndexOutOfBounds(index: int)   // ArrayIndexOutOfBoundsException on the value array
    | NoValue(name: string)          // IllegalArgumentException "The template variable, <name>, has no value"
    | InvalidTemplate(template: string)  // the template parser rejected a component template

  /** `HashMap.get` on a map whose values may be null. */
  function Get(m: map<string, Option<string>>, k: string): Option<string> {
    if k in m then m[k] else None
  }

  /** The entries of a map whose value is not null. */
  function NonNull(m: map<string, Option<string>>): (r: map<string, string>)
    ensures forall k :: k in r <==> Get(m, k).Some?
    ensures forall k :: k in r ==> Get(m, k) == Some(r[k])
  {
    map k | k in m && m[k].Some? :: m[k].value
  }

  /** The names a token sequence mentions. */
  function Names(toks: seq<Token>): set<string> {
    if toks == [] then {}
    else (if toks[0].Var? then {toks[0].name} else {}) + Names(toks[1..])
  }

  /** One token with placeholders looked up in `m`; a missing name gives the empty string. */
  function Piece(t: Token, m: map<string, string>): string {
    match t
    case Lit(c) => [c]
    case Var(n) => if n in m then m[n] else ""
  }

  /** Every placeholder replaced by its value in `m` (or by nothing), literal text copied in order. */
  function Fill(toks: seq<Token>, m: map<string, string>): string {
    if toks == [] then "" else Piece(toks[0], m) + Fill(toks[1..], m)
  }

  lemma {:induction false} FillAppend(a: seq<Token>, b: seq<Token>, m: map<string, string>)
    ensures Fill(a + b, m) == Fill(a, m) + Fill(b, m)
  {
    if a == [] {
      assert a + b == b;
    } else {
      assert (a + b)[0] == a[0] && (a + b)[1..] == a[1..] + b;
      FillAppend(a[1..], b, m);
    }
  }

  /** Literal text is copied unchanged. */
  lemma {:induction false} FillLits(t: string, m: map<string, string>)
    ensures Fill(Lits(t), m) == t
  {
    if t != [] {
      FillLits(t[1..], m);
    }
  }

  /** Only the values of names the tokens mention matter. */
  lemma {:induction false} FillAgrees(toks: seq<Token>, m1: map<string, string>, m2: map<string, string>)
    requires forall n :: n in Names(toks) ==> (n in m1 <==> n in m2) && (n in m1 ==> m1[n] == m2[n])
    ensures Fill(toks, m1) == Fill(toks, m2)
  {
    if toks != [] {
      FillAgrees(toks[1..], m1, m2);
    }
  }

  /** Giving every placeholder its own `{name}` text as value writes the template back unchanged. */
  lemma {:induction false} FillWithOwnPlaceholders(toks: seq<Token>, m: map<string, string>)
    requires forall n :: n in Names(toks) ==> n in m && m[n] == "{" + n + "}"
    ensures Fill(toks, m) == Unscan(toks)
  {
    if toks != [] {
      FillWithOwnPlaceholders(toks[1..], m);
    }
  }

  // ---------------------------------------------------------------------------------
  // Positional substitution: the running state of the loop.

  /** Text produced so far, the cursor into the value array and the name-to-value map. */
  datatype Progress = Progress(text: string, cursor: int, seen: map<string, string>)

  /** `t` appended in front of a successful rendering; an exception passes through. */
  function Prepend(t: string, r: Result<Progress, UriError>): Result<Progress, UriError> {
    match r
    case Ok(p) => Ok(p.(text := t + p.text))
    case Err(e) => Err(e)
  }

  /** The text of a successful positional substitution. */
  function TextOf(r: Result<Progress, UriError>): Result<string, UriError> {
    match r
    case Ok(p) => Ok(p.text)
    case Err(e) => Err(e)
  }

  lemma PrependNothing(r: Result<Progress, UriError>)
    ensures Prepend("", r) == r
  {
    if r.Ok? {
      assert "" + r.value.text == r.value.text;
    }
  }

  lemma PrependPrepend(a: string, b: string, r: Result<Progress, UriError>)
    ensures Prepend(a, Prepend(b, r)) == Prepend(a + b, r)
  {
    if r.Ok? {
      assert a + (b + r.value.text) == (a + b) + r.value.text;
    }
  }

  /**
   * Lenient positional substitution over `values[v..end)`: a name met before reuses its
   * value; an unseen name consumes the next value, which is recorded unless it is null
   * (a null renders nothing); once the range is used up a placeholder renders nothing.
   * Reading outside the array throws.
   */
  function Positional(toks: seq<Token>, values: seq<Option<string>>, v: int, end: int,
                      seen: map<string, string>): Result<Progress, UriError>
  {
    if toks == [] then Ok(Progress("", v, seen))
    else
      match toks[0]
      case Lit(c) => Prepend([c], Positional(toks[1..], values, v, end, seen))
      case Var(n) =>
        if n in seen then Prepend(seen[n], Positional(toks[1..], values, v, end, seen))
        else if v < end then
          if v < 0 || v >= |values| then Err(IndexOutOfBounds(v))
          else
            match values[v]
            case Some(x) => Prepend(x, Positional(toks[1..], values, v + 1, end, seen[n := x]))
            case None => Positional(toks[1..], values, v + 1, end, seen)
        else Positional(toks[1..], values, v, end, seen)
  }

  /** Literal text in front of the remaining tokens is copied and consumes nothing. */
  lemma {:induction false} PositionalLits(t: string, rest: seq<Token>, values: seq<Option<string>>,
                                          v: int, end: int, seen: map<string, string>)
    ensures Positional(Lits(t) + rest, values, v, end, seen)
         == Prepend(t, Positional(rest, values, v, end, seen))
  {
    if t == [] {
      assert Lits(t) + rest == rest;
      PrependNothing(Positional(rest, values, v, end, seen));
    } else {
      var tail := Lits(t[1..]) + rest;
      assert Lits(t) + rest == [Lit(t[0])] + tail;
      PositionalLits(t[1..], rest, values, v, end, seen);
      PositionalLit(t[0], tail, values, v, end, seen);
      PrependPrepend([t[0]], t[1..], Positional(rest, values, v, end, seen));
      assert [t[0]] + t[1..] == t;
    }
  }

  /** One literal character in front of the tokens. */
  lemma PositionalLit(c: char, toks: seq<Token>, values: seq<Option<string>>,
                      v: int, end: int, seen: map<string, string>)
    ensures Positional([Lit(c)] + toks, values, v, end, seen) == Prepend([c], Positional(toks, values, v, end, seen))
  {
    assert ([Lit(c)] + toks)[1..] == toks;
  }

  /**
   * The cursor never moves backwards, moves only inside the range, and values already
   * recorded for a name are kept.
   */
  lemma {:induction false} PositionalProgress(toks: seq<Token>, values: seq<Option<string>>,
                                              v: int, end: int, seen: map<string, string>)
    ensures var r := Positional(toks, values, v, end, seen);
      r.Ok? ==> && v <= r.value.cursor
                && (r.value.cursor == v || r.value.cursor <= end)
                && seen.Keys <= r.value.seen.Keys
                && forall n :: n in seen ==> r.value.seen[n] == seen[n]
  {
    if toks != [] {
      match toks[0]
      case Lit(c) =>
        PositionalProgress(toks[1..], values, v, end, seen);
      case Var(n) =>
        if n in seen {
          PositionalProgress(toks[1..], values, v, end, seen);
        } else if v < end {
          if 0 <= v < |values| {
            match values[v]
            case Some(x) => PositionalProgress(toks[1..], values, v + 1, end, seen[n := x]);
            case None => PositionalProgress(toks[1..], values, v + 1, end, seen);
          }
        } else {
          PositionalProgress(toks[1..], values, v, end, seen);
        }
    }
  }

  /** The names of `toks` not in `known`, in order of first occurrence. */
  function FreshNames(toks: seq<Token>, known: set<string>): seq<string> {
    if toks == [] then []
    else
      match toks[0]
      case Lit(_) => FreshNames(toks[1..], known)
      case Var(n) =>
        if n in known then FreshNames(toks[1..], known)
        else [n] + FreshNames(toks[1..], known + {n})
  }

  /** The k-th name bound to the k-th value, as far as both go. */
  function Zip(names: seq<string>, vs: seq<string>): map<string, string> {
    if names == [] || vs == [] then map[] else Zip(names[1..], vs[1..])[names[0] := vs[0]]
  }

  /** The strings of a value range without nulls. */
  function Present(vs: seq<Option<string>>): (r: seq<string>)
    requires forall k :: 0 <= k < |vs| ==> vs[k].Some?
    ensures |r| == |vs| && forall k :: 0 <= k < |vs| ==> vs[k] == Some(r[k])
  {
    if vs == [] then [] else [vs[0].value] + Present(vs[1..])
  }

  function Min(a: int, b: int): int {
    if a <= b then a else b
  }

  /**
   * Positional substitution is map substitution under the assignment "k-th distinct new
   * name gets the k-th value of the range": when the range lies inside the array and holds
   * no null, the result is the lenient map substitution with that assignment (names seen
   * before keep their value), and exactly one value is consumed per distinct new name,
   * as long as values last.
   */
  lemma {:induction false} PositionalIsZipFill(toks: seq<Token>, values: seq<Option<string>>,
                                               v: int, end: int, seen: map<string, string>)
    requires 0 <= v <= end <= |values|
    requires forall k :: v <= k < end ==> values[k].Some?
    ensures var r := Positional(toks, values, v, end, seen);
      && r.Ok?
      && r.value.text == Fill(toks, Zip(FreshNames(toks, seen.Keys), Present(values[v..end])) + seen)
      && r.value.cursor == v + Min(|FreshNames(toks, seen.Keys)|, end - v)
    decreases |toks|, 1
  {
    if toks != [] {
      var rest := toks[1..];
      var vs := Present(values[v..end]);
      match toks[0]
      case Lit(c) =>
        PositionalIsZipFill(rest, values, v, end, seen);
      case Var(n) =>
        if n in seen {
          PositionalIsZipFill(rest, values, v, end, seen);
        } else if v < end {
          PositionalIsZipFillConsume(toks, values, v, end, seen);
        } else {
          PositionalIsZipFill(rest, values, v, end, seen);
          assert vs == [];
          assert Zip(FreshNames(toks, seen.Keys), vs) == map[];
          assert Zip(FreshNames(rest, seen.Keys), vs) == map[];
        }
    }
  }

  /** The step of PositionalIsZipFill where an unseen name consumes the next value. */
  lemma {:induction false} PositionalIsZipFillConsume(toks: seq<Token>, values: seq<Option<string>>,
                                                      v: int, end: int, seen: map<string, string>)
    requires 0 <= v < end <= |values|
    requires forall k :: v <= k < end ==> values[k].Some?
    requires toks != [] && toks[0].Var? && toks[0].name !in seen
    ensures var r := Positional(toks, values, v, end, seen);
      && r.Ok?
      && r.value.text == Fill(toks, Zip(FreshNames(toks, seen.Keys), Present(values[v..end])) + seen)
      && r.value.cursor == v + Min(|FreshNames(toks, seen.Keys)|, end - v)
    decreases |toks|, 0
  {
    var n, rest := toks[0].name, toks[1..];
    var x := values[v].value;
    var seen' := seen[n := x];
    var vs := Present(values[v..end]);
    PositionalIsZipFill(rest, values, v + 1, end, seen');
    assert values[v + 1 .. end] == values[v..end][1..];
    assert vs[1..] == Present(values[v + 1 .. end]);
    assert seen'.Keys == seen.Keys + {n};
    var f' := FreshNames(rest, seen.Keys + {n});
    assert FreshNames(toks, seen.Keys) == [n] + f';
    var z' := Zip(f', vs[1..]);
    assert Zip([n] + f', vs) == z'[n := x];
    assert z'[n := x] + seen == z' + seen';
  }

  // ---------------------------------------------------------------------------------
  // Strict, component-aware substitution.

  /** The non-null values of a map, each passed through the component encoder `enc`. */
  function Encoded(values: map<string, Option<string>>, enc: string -> string): (r: map<string, string>)
    ensures forall k :: k in r <==> Get(values, k).Some?
    ensures forall k :: k in r ==> r[k] == enc(Get(values, k).value)
  {
    var present := NonNull(values);
    map k | k in present :: enc(present[k])
  }

  /**
   * Strict substitution from a map: every placeholder takes its encoded value; the first
   * placeholder without a non-null value throws naming it. It succeeds exactly when every
   * name has a value, and then it is the lenient substitution of the encoded values.
   */
  function Strict(toks: seq<Token>, values: map<string, Option<string>>, enc: string -> string)
    : (r: Result<string, UriError>)
    ensures r.Ok? <==> forall n :: n in Names(toks) ==> Get(values, n).Some?
    ensures r.Ok? ==> r.value == Fill(toks, Encoded(values, enc))
    ensures r.Err? ==> r.error.NoValue? && r.error.name in Names(toks) && Get(values, r.error.name).None?
  {
    if toks == [] then Ok("")
    else
      var rest := Strict(toks[1..], values, enc);
      match toks[0]
      case Lit(c) => if rest.Ok? then Ok([c] + rest.value) else rest
      case Var(n) =>
        match Get(values, n)
        case None => Err(NoValue(n))
        case Some(x) => if rest.Ok? then Ok(enc(x) + rest.value) else rest
  }

  /**
   * Strict positional substitution: a name met before (in this or an earlier component)
   * reuses its recorded, already encoded value; an unseen name consumes the next value,
   * encodes it and records it; a null value or an exhausted array throws naming the
   * placeholder. The cursor stays within the array and earlier bindings are kept.
   */
  function StrictPositional(toks: seq<Token>, values: seq<Option<string>>, v: nat,
                            seen: map<string, string>, enc: string -> string)
    : (r: Result<Progress, UriError>)
    requires v <= |values|
    ensures r.Ok? ==> v <= r.value.cursor <= |values|
    ensures r.Ok? ==> seen.Keys <= r.value.seen.Keys && forall n :: n in seen ==> r.value.seen[n] == seen[n]
    ensures r.Err? ==> r.error.NoValue? && r.error.name in Names(toks)
  {
    if toks == [] then Ok(Progress("", v, seen))
    else
      match toks[0]
      case Lit(c) => Prepend([c], StrictPositional(toks[1..], values, v, seen, enc))
      case Var(n) =>
        if n in seen then Prepend(seen[n], StrictPositional(toks[1..], values, v, seen, enc))
        else if v < |values| then
          match values[v]
          case Some(x) =>
            var y := enc(x);
            Prepend(y, StrictPositional(toks[1..], values, v + 1, seen[n := y], enc))
          case None => Err(NoValue(n))
        else Err(NoValue(n))
  }

  /**
   * Repeated names are consistent: on success every placeholder is rendered with the value
   * finally recorded for its name.
   */
  lemma {:induction false} StrictPositionalConsistent(toks: seq<Token>, values: seq<Option<string>>,
                                                      v: nat, seen: map<string, string>, enc: string -> string)
    requires v <= |values|
    ensures var r := StrictPositional(toks, values, v, seen, enc);
      r.Ok? ==> Names(toks) <= r.value.seen.Keys && r.value.text == Fill(toks, r.value.seen)
  {
    if toks != [] {
      var rest := toks[1..];
      match toks[0]
      case Lit(c) =>
        StrictPositionalConsistent(rest, values, v, seen, enc);
      case Var(n) =>
        if n in seen {
          StrictPositionalConsistent(rest, values, v, seen, enc);
        } else if v < |values| && values[v].Some? {
          StrictPositionalConsistent(rest, values, v + 1, seen[n := enc(values[v].value)], enc);
        }
    }
  }

  /** A value is consumed exactly when a new name is recorded. */
  lemma {:induction false} StrictPositionalConsumesOncePerName(toks: seq<Token>, values: seq<Option<string>>,
                                                               v: nat, seen: map<string, string>, enc: string -> string)
    requires v <= |values|
    ensures var r := StrictPositional(toks, values, v, seen, enc);
      r.Ok? ==> |r.value.seen.Keys - seen.Keys| == r.value.cursor - v
    decreases |toks|, 1
  {
    if toks == [] {
      assert seen.Keys - seen.Keys == {};
    } else if toks[0].Lit? || toks[0].name in seen {
      var r := StrictPositional(toks[1..], values, v, seen, enc);
      StrictPositionalConsumesOncePerName(toks[1..], values, v, seen, enc);
      assert r.Ok? ==> StrictPositional(toks, values, v, seen, enc).value.cursor == r.value.cursor;
      assert r.Ok? ==> StrictPositional(toks, values, v, seen, enc).value.seen == r.value.seen;
    } else if v < |values| && values[v].Some? {
      ConsumeStep(toks, values, v, seen, enc);
    }
  }

  lemma {:induction false} ConsumeStep(toks: seq<Token>, values: seq<Option<string>>,
                                       v: nat, seen: map<string, string>, enc: string -> string)
    requires v < |values| && values[v].Some?
    requires toks != [] && toks[0].Var? && toks[0].name !in seen
    ensures var r := StrictPositional(toks, values, v, seen, enc);
      r.Ok? ==> |r.value.seen.Keys - seen.Keys| == r.value.cursor - v
    decreases |toks|, 0
  {
    var n := toks[0].name;
    var y := enc(values[v].value);
    var seen' := seen[n := y];
    var r := StrictPositional(toks[1..], values, v + 1, seen', enc);
    StrictPositionalNewName(toks, values, v, seen, enc);
    StrictPositionalConsumesOncePerName(toks[1..], values, v + 1, seen', enc);
    assert seen'.Keys == seen.Keys + {n};
    OneMoreKey(StrictPositional(toks, values, v, seen, enc), y, r, seen.Keys, n, v);
  }

  /** An unseen name with a value available: the value is encoded, recorded and consumed. */
  lemma StrictPositionalNewName(toks: seq<Token>, values: seq<Option<string>>,
                                v: nat, seen: map<string, string>, enc: string -> string)
    requires v < |values| && values[v].Some?
    requires toks != [] && toks[0].Var? && toks[0].name !in seen
    ensures var y := enc(values[v].value);
      StrictPositional(toks, values, v, seen, enc)
      == Prepend(y, StrictPositional(toks[1..], values, v + 1, seen[toks[0].name := y], enc))
  {
  }

  /** Recording one new name accounts for one more consumed value. */
  lemma OneMoreKey(top: Result<Progress, UriError>, y: string, r: Result<Progress, UriError>,
                   before: set<string>, n: string, v: int)
    requires top == Prepend(y, r) && n !in before
    requires r.Ok? ==> before + {n} <= r.value.seen.Keys
    requires r.Ok? ==> |r.value.seen.Keys - (before + {n})| == r.value.cursor - (v + 1)
    ensures top.Ok? ==> |top.value.seen.Keys - before| == top.value.cursor - v
  {
    if r.Ok? {
      var after := r.value.seen.Keys;
      var a := after - (before + {n});
      assert n !in a;
      assert after - before == a + {n};
    }
  }

  /** `values[v .. v + n]` lies inside the array and holds no null. */
  predicate Available(values: seq<Option<string>>, v: nat, n: nat) {
    v + n <= |values| && forall k :: v <= k < v + n ==> values[k].Some?
  }

  /** The values `values[v .. v + n]`, each passed through the component encoder. */
  function EncodedRun(values: seq<Option<string>>, v: nat, n: nat, enc: string -> string): (r: seq<string>)
    requires Available(values, v, n)
    ensures |r| == n && forall k :: 0 <= k < n ==> r[k] == enc(values[v + k].value)
    decreases n
  {
    if n == 0 then [] else [enc(values[v].value)] + EncodedRun(values, v + 1, n - 1, enc)
  }

  /** How many of the `n` slots from `v` on can be read before one is null or past the array. */
  function FirstMissing(values: seq<Option<string>>, v: nat, n: nat): (j: nat)
    ensures j <= n
    ensures j < n ==> v + j >= |values| || values[v + j].None?
    decreases n
  {
    if n == 0 then 0
    else if v < |values| && values[v].Some? then 1 + FirstMissing(values, v + 1, n - 1)
    else 0
  }

  /** Every slot before the first missing one holds a value, and none is missing iff all are available. */
  lemma {:induction false} FirstMissingIsFirst(values: seq<Option<string>>, v: nat, n: nat)
    requires v <= |values|
    ensures v + FirstMissing(values, v, n) <= |values|
    ensures forall k :: v <= k < v + FirstMissing(values, v, n) ==> values[k].Some?
    ensures FirstMissing(values, v, n) == n <==> Available(values, v, n)
    decreases n
  {
    if n > 0 && v < |values| && values[v].Some? {
      FirstMissingIsFirst(values, v + 1, n - 1);
      AvailableNext(values, v, n - 1);
      var j' := FirstMissing(values, v + 1, n - 1);
      assert FirstMissing(values, v, n) == 1 + j';
      forall k | v <= k < v + 1 + j' ensures values[k].Some? {
        if k > v {
          assert v + 1 <= k < v + 1 + j';
        }
      }
    } else {
      assert FirstMissing(values, v, n) == 0;
      if n > 0 && v < |values| {
        assert !values[v].Some?;
      }
    }
  }

  /**
   * The outcome of strict positional substitution when the new names, in order of first
   * occurrence, are `newNames`: it succeeds iff one non-null value is there for each of them;
   * then the k-th new name is bound to the k-th value from `v`, encoded, earlier bindings
   * are kept and the cursor has moved past those values; otherwise it throws naming the
   * first new name whose slot is null or past the array.
   */
  predicate AssignsInOrder(r: Result<Progress, UriError>, newNames: seq<string>, values: seq<Option<string>>,
                           v: nat, seen: map<string, string>, enc: string -> string)
  {
    && (r.Ok? <==> Available(values, v, |newNames|))
    && (r.Ok? ==> r.value.cursor == v + |newNames|
                  && r.value.seen == Zip(newNames, EncodedRun(values, v, |newNames|, enc)) + seen)
    && (r.Err? ==> FirstMissing(values, v, |newNames|) < |newNames|
                   && r.error == NoValue(newNames[FirstMissing(values, v, |newNames|)]))
  }

  /**
   * Strict positional substitution is strict map substitution under the assignment "k-th
   * distinct new name gets the k-th value, encoded": the bindings it leaves are exactly
   * that assignment over the earlier ones, the text is the fill with them, and a null or
   * exhausted slot throws naming the variable that needed it.
   */
  lemma StrictPositionalIsZipFill(toks: seq<Token>, values: seq<Option<string>>, v: nat,
                                  seen: map<string, string>, enc: string -> string)
    requires v <= |values|
    ensures var r := StrictPositional(toks, values, v, seen, enc);
      var newNames := FreshNames(toks, seen.Keys);
      && AssignsInOrder(r, newNames, values, v, seen, enc)
      && (r.Ok? ==> r.value.text == Fill(toks, Zip(newNames, EncodedRun(values, v, |newNames|, enc)) + seen))
  {
    StrictPositionalZip(toks, values, v, seen, enc);
    StrictPositionalConsistent(toks, values, v, seen, enc);
  }

  lemma {:induction false} StrictPositionalZip(toks: seq<Token>, values: seq<Option<string>>, v: nat,
                                               seen: map<string, string>, enc: string -> string)
    requires v <= |values|
    ensures AssignsInOrder(StrictPositional(toks, values, v, seen, enc), FreshNames(toks, seen.Keys),
                           values, v, seen, enc)
    decreases |toks|, 1
  {
    var r := StrictPositional(toks, values, v, seen, enc);
    if toks == [] {
      assert Zip([], EncodedRun(values, v, 0, enc)) + seen == seen;
    } else if toks[0].Lit? || toks[0].name in seen {
      var r' := StrictPositional(toks[1..], values, v, seen, enc);
      StrictPositionalZip(toks[1..], values, v, seen, enc);
      assert FreshNames(toks, seen.Keys) == FreshNames(toks[1..], seen.Keys);
      assert r == Prepend(Piece(toks[0], seen), r');
    } else if v < |values| && values[v].Some? {
      StrictZipConsume(toks, values, v, seen, enc);
    } else {
      var newNames := FreshNames(toks, seen.Keys);
      assert newNames == [toks[0].name] + FreshNames(toks[1..], seen.Keys + {toks[0].name});
      assert r == Err(NoValue(toks[0].name));
      assert FirstMissing(values, v, |newNames|) == 0;
    }
  }

  /** The step of StrictPositionalZip where an unseen name takes the next value. */
  lemma {:induction false} StrictZipConsume(toks: seq<Token>, values: seq<Option<string>>, v: nat,
                                            seen: map<string, string>, enc: string -> string)
    requires v < |values| && values[v].Some?
    requires toks != [] && toks[0].Var? && toks[0].name !in seen
    ensures AssignsInOrder(StrictPositional(toks, values, v, seen, enc), FreshNames(toks, seen.Keys),
                           values, v, seen, enc)
    decreases |toks|, 0
  {
    var n := toks[0].name;
    var y := enc(values[v].value);
    var seen' := seen[n := y];
    StrictPositionalNewName(toks, values, v, seen, enc);
    StrictPositionalZip(toks[1..], values, v + 1, seen', enc);
    assert seen'.Keys == seen.Keys + {n};
    var newNames' := FreshNames(toks[1..], seen.Keys + {n});
    assert FreshNames(toks, seen.Keys) == [n] + newNames';
    AssignsNext(StrictPositional(toks, values, v, seen, enc), StrictPositional(toks[1..], values, v + 1, seen', enc),
                n, newNames', values, v, seen, enc);
  }

  /** Taking one value for a new name `n` extends the assignment of the names after it. */
  lemma AssignsNext(r: Result<Progress, UriError>, r': Result<Progress, UriError>, n: string, newNames': seq<string>,
                    values: seq<Option<string>>, v: nat, seen: map<string, string>, enc: string -> string)
    requires v < |values| && values[v].Some? && n !in seen
    requires r == Prepend(enc(values[v].value), r')
    requires AssignsInOrder(r', newNames', values, v + 1, seen[n := enc(values[v].value)], enc)
    ensures AssignsInOrder(r, [n] + newNames', values, v, seen, enc)
  {
    var y := enc(values[v].value);
    var newNames := [n] + newNames';
    AvailableNext(values, v, |newNames'|);
    assert FirstMissing(values, v, |newNames|) == 1 + FirstMissing(values, v + 1, |newNames'|);
    if r'.Ok? {
      var run' := EncodedRun(values, v + 1, |newNames'|, enc);
      assert EncodedRun(values, v, |newNames|, enc) == [y] + run';
      ZipNext(n, newNames', y, run', seen);
    } else {
      assert newNames[FirstMissing(values, v, |newNames|)] == newNames'[FirstMissing(values, v + 1, |newNames'|)];
    }
  }

  lemma AvailableNext(values: seq<Option<string>>, v: nat, m: nat)
    requires v < |values| && values[v].Some?
    ensures Available(values, v, m + 1) <==> Available(values, v + 1, m)
  {
  }

  lemma ZipNext(n: string, newNames': seq<string>, y: string, run': seq<string>, seen: map<string, string>)
    requires n !in seen
    ensures Zip([n] + newNames', [y] + run') + seen == Zip(newNames', run') + seen[n := y]
  {
    assert ([n] + newNames')[1..] == newNames';
    assert ([y] + run')[1..] == run';
  }

  // ---------------------------------------------------------------------------------
  // One iteration of a `while (m.find())` loop, for each renderer.

  /** One match found from `i`: its literal text, then its placeholder, then the rest. */
  lemma FillFindStep(s: string, i: nat, p: nat, e: nat, m: map<string, string>)
    requires i <= |s| && Find(s, i) == Some((p, e))
    ensures Fill(TokensFrom(s, i), m) == s[i..p] + (Piece(Var(s[p + 1 .. e - 1]), m) + Fill(TokensFrom(s, e), m))
  {
    FindSplitsTokens(s, i, p, e);
    FillVarAfterLits(s[i..p], s[p + 1 .. e - 1], TokensFrom(s, e), m);
  }

  lemma FillVarAfterLits(lit: string, n: string, tail: seq<Token>, m: map<string, string>)
    ensures Fill(Lits(lit) + ([Var(n)] + tail), m) == lit + (Piece(Var(n), m) + Fill(tail, m))
  {
    FillAppend(Lits(lit), [Var(n)] + tail, m);
    FillLits(lit, m);
    FillVar(n, tail, m);
  }

  lemma FillVar(n: string, tail: seq<Token>, m: map<string, string>)
    ensures Fill([Var(n)] + tail, m) == Piece(Var(n), m) + Fill(tail, m)
  {
    assert ([Var(n)] + tail)[1..] == tail;
  }

  /** No match left from `i`: the rest is literal text. */
  lemma FillFindNone(s: string, i: nat, m: map<string, string>)
    requires i <= |s| && Find(s, i) == None
    ensures Fill(TokensFrom(s, i), m) == s[i..]
  {
    FindNoneAllLiteral(s, i);
    FillLits(s[i..], m);
  }

  /** One match found from `i` for positional substitution. */
  lemma PositionalFindStep(s: string, i: nat, p: nat, e: nat, values: seq<Option<string>>,
                           v: int, end: int, seen: map<string, string>)
    requires i <= |s| && Find(s, i) == Some((p, e))
    ensures Positional(TokensFrom(s, i), values, v, end, seen)
         == Prepend(s[i..p], Positional([Var(s[p + 1 .. e - 1])] + TokensFrom(s, e), values, v, end, seen))
  {
    FindSplitsTokens(s, i, p, e);
    PositionalLits(s[i..p], [Var(s[p + 1 .. e - 1])] + TokensFrom(s, e), values, v, end, seen);
  }

  /** The positional loop's output after copying the literal text before a match. */
  lemma PositionalMatchStep(b: string, s: string, i: nat, p: nat, e: nat, values: seq<Option<string>>,
                            v: int, end: int, seen: map<string, string>)
    requires i <= |s| && Find(s, i) == Some((p, e))
    ensures Prepend(b, Positional(TokensFrom(s, i), values, v, end, seen))
         == Prepend(b + s[i..p], Positional([Var(s[p + 1 .. e - 1])] + TokensFrom(s, e), values, v, end, seen))
  {
    PositionalFindStep(s, i, p, e, values, v, end, seen);
    PrependPrepend(b, s[i..p], Positional([Var(s[p + 1 .. e - 1])] + TokensFrom(s, e), values, v, end, seen));
  }

  /** A placeholder whose name was seen before reuses the recorded value. */
  lemma PositionalVarSeen(b: string, n: string, tail: seq<Token>, values: seq<Option<string>>,
                          v: int, end: int, seen: map<string, string>)
    requires n in seen
    ensures Prepend(b, Positional([Var(n)] + tail, values, v, end, seen))
         == Prepend(b + seen[n], Positional(tail, values, v, end, seen))
  {
    assert ([Var(n)] + tail)[1..] == tail;
    PrependPrepend(b, seen[n], Positional(tail, values, v, end, seen));
  }

  /** An unseen name inside the range consumes one non-null value and records it. */
  lemma PositionalVarTake(b: string, n: string, tail: seq<Token>, values: seq<Option<string>>,
                          v: int, end: int, seen: map<string, string>)
    requires n !in seen && 0 <= v < end && v < |values| && values[v].Some?
    ensures Prepend(b, Positional([Var(n)] + tail, values, v, end, seen))
         == Prepend(b + values[v].value, Positional(tail, values, v + 1, end, seen[n := values[v].value]))
  {
    assert ([Var(n)] + tail)[1..] == tail;
    PrependPrepend(b, values[v].value, Positional(tail, values, v + 1, end, seen[n := values[v].value]));
  }

  /** An unseen name inside the range consumes a null value and renders nothing. */
  lemma PositionalVarNull(b: string, n: string, tail: seq<Token>, values: seq<Option<string>>,
                          v: int, end: int, seen: map<string, string>)
    requires n !in seen && 0 <= v < end && v < |values| && values[v].None?
    ensures Prepend(b, Positional([Var(n)] + tail, values, v, end, seen))
         == Prepend(b, Positional(tail, values, v + 1, end, seen))
  {
    assert ([Var(n)] + tail)[1..] == tail;
  }

  /** Past the end of the range an unseen name renders nothing. */
  lemma PositionalVarPast(b: string, n: string, tail: seq<Token>, values: seq<Option<string>>,
                          v: int, end: int, seen: map<string, string>)
    requires n !in seen && end <= v
    ensures Prepend(b, Positional([Var(n)] + tail, values, v, end, seen))
         == Prepend(b, Positional(tail, values, v, end, seen))
  {
    assert ([Var(n)] + tail)[1..] == tail;
  }

  /** An unseen name whose index lies outside the array throws. */
  lemma PositionalVarOutside(n: string, tail: seq<Token>, values: seq<Option<string>>,
                             v: int, end: int, seen: map<string, string>)
    requires n !in seen && v < end && (v < 0 || v >= |values|)
    ensures Positional([Var(n)] + tail, values, v, end, seen) == Err(IndexOutOfBounds(v))
  {
  }

  /** No match left from `i`: positional substitution copies the rest and stops. */
  lemma PositionalFindNone(goal: Result<Progress, UriError>, b: string, s: string, i: nat,
                           values: seq<Option<string>>, v: int, end: int, seen: map<string, string>)
    requires i <= |s| && Find(s, i) == None
    requires goal == Prepend(b, Positional(TokensFrom(s, i), values, v, end, seen))
    ensures Positional(TokensFrom(s, i), values, v, end, seen) == Ok(Progress(s[i..], v, seen))
    ensures TextOf(goal) == Ok(b + s[i..])
  {
    FindNoneAllLiteral(s, i);
    PositionalLits(s[i..], [], values, v, end, seen);
    assert Lits(s[i..]) + [] == Lits(s[i..]);
    assert s[i..] + "" == s[i..];
  }
}
