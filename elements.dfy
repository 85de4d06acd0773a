/**
 * `ApplicationConfig.getElements`: entries of a string array are split at any of a set of
 * delimiter characters, and the pieces are trimmed; the public forms also drop null, blank
 * and empty entries.
 */
module Elements {
  import opened Results

  /** Compiling the delimiter class `[]` of an empty delimiter string fails. */
  datatype SplitError = UnclosedCharacterClass

  // ---------------------------------------------------------------------------------
  // Java `String.trim`.

  /** A character `trim` removes: any code unit up to and including the space. */
  predicate Blank(c: char) {
    c <= ' '
  }

  /** No blank character at either end. */
  predicate IsTrimmed(s: string) {
    s == [] || (!Blank(s[0]) && !Blank(s[|s| - 1]))
  }

  /** The first index at or after `i` that holds no blank. */
  function SkipBlanks(s: string, i: nat): (k: nat)
    requires i <= |s|
    ensures i <= k <= |s| && (k < |s| ==> !Blank(s[k]))
    ensures forall m :: i <= m < k ==> Blank(s[m])
    decreases |s| - i
  {
    if i < |s| && Blank(s[i]) then SkipBlanks(s, i + 1) else i
  }

  /** The end of `s[lo..j]` once blanks are dropped from its right. */
  function SkipBlanksBack(s: string, lo: nat, j: nat): (k: nat)
    requires lo <= j <= |s|
    ensures lo <= k <= j && (lo < k ==> !Blank(s[k - 1]))
    ensures forall m :: k <= m < j ==> Blank(s[m])
    decreases j
  {
    if lo < j && Blank(s[j - 1]) then SkipBlanksBack(s, lo, j - 1) else j
  }

  /** Java `String.trim`: `s` without its leading and trailing blanks. */
  function Trim(s: string): (r: string)
    ensures IsTrimmed(r) && |r| <= |s|
  {
    var st := SkipBlanks(s, 0);
    s[st .. SkipBlanksBack(s, st, |s|)]
  }

  /** Every character of `x` is blank. */
  predicate AllBlank(x: string) {
    forall k :: 0 <= k < |x| ==> Blank(x[k])
  }

  /** `trim` removes only blanks, from both ends, and keeps the middle. */
  lemma TrimRemovesOnlyBlanks(s: string)
    ensures exists a, b :: s == a + Trim(s) + b && AllBlank(a) && AllBlank(b)
  {
    var st := SkipBlanks(s, 0);
    var len := SkipBlanksBack(s, st, |s|);
    BlankEnds(s, st, len);
    assert s == s[..st] + Trim(s) + s[len..];
  }

  /** Cutting `s` into blanks before `st`, the middle, and blanks from `len`. */
  lemma BlankEnds(s: string, st: nat, len: nat)
    requires st <= len <= |s|
    requires forall m :: 0 <= m < st ==> Blank(s[m])
    requires forall m :: len <= m < |s| ==> Blank(s[m])
    ensures s == s[..st] + s[st..len] + s[len..]
    ensures AllBlank(s[..st]) && AllBlank(s[len..])
  {
    var a, b := s[..st], s[len..];
    assert AllBlank(a) by {
      forall k | 0 <= k < |a| ensures Blank(a[k]) {
        assert a[k] == s[k];
      }
    }
    assert AllBlank(b) by {
      forall k | 0 <= k < |b| ensures Blank(b[k]) {
        assert b[k] == s[len + k];
      }
    }
    assert s[..len] == a + s[st..len];
    assert s == s[..len] + b;
  }

  /** `trim` is idempotent. */
  lemma TrimTrimmed(s: string)
    requires IsTrimmed(s)
    ensures Trim(s) == s
  {
    var st := SkipBlanks(s, 0);
    assert st == 0;
    assert SkipBlanksBack(s, 0, |s|) == |s|;
  }

  // ---------------------------------------------------------------------------------
  // Java `String.split` with the class of the delimiter characters.

  /** `s` cut at every delimiter character; `k` delimiters give `k + 1` pieces. */
  function Pieces(s: string, delimiters: string): (ps: seq<string>)
    ensures |ps| >= 1
    ensures forall i, k :: 0 <= i < |ps| && 0 <= k < |ps[i]| ==> ps[i][k] !in delimiters
    decreases |s|
  {
    if s == [] then [""]
    else
      var rest := Pieces(s[1..], delimiters);
      if s[0] in delimiters then [""] + rest
      else [[s[0]] + rest[0]] + rest[1..]
  }

  /** The delimiter characters of `s`, in order: the cuts between consecutive pieces. */
  function Cuts(s: string, delimiters: string): (ds: seq<char>)
    ensures forall i :: 0 <= i < |ds| ==> ds[i] in delimiters
    decreases |s|
  {
    if s == [] then []
    else if s[0] in delimiters then [s[0]] + Cuts(s[1..], delimiters)
    else Cuts(s[1..], delimiters)
  }

  /** The pieces with one cut character between each two of them. */
  function Interleave(ps: seq<string>, ds: seq<char>): string
    requires |ps| == |ds| + 1
  {
    if ds == [] then ps[0] else ps[0] + [ds[0]] + Interleave(ps[1..], ds[1..])
  }

  /**
   * Splitting loses and reorders nothing: there is one cut per delimiter occurrence, one
   * fewer than the pieces, and putting each cut back between its two pieces gives the
   * input back.
   */
  lemma {:induction false} JoinPieces(s: string, delimiters: string)
    ensures |Cuts(s, delimiters)| == |Pieces(s, delimiters)| - 1
    ensures Interleave(Pieces(s, delimiters), Cuts(s, delimiters)) == s
    decreases |s|
  {
    if s != [] {
      var rest, ds := Pieces(s[1..], delimiters), Cuts(s[1..], delimiters);
      JoinPieces(s[1..], delimiters);
      if s[0] in delimiters {
        InterleaveEmptyFirst(s[0], rest, ds);
      } else {
        InterleaveExtendFirst(s[0], rest, ds);
      }
      assert s == [s[0]] + s[1..];
    }
  }

  /** An empty first piece puts its cut first. */
  lemma InterleaveEmptyFirst(c: char, ps: seq<string>, ds: seq<char>)
    requires |ps| == |ds| + 1
    ensures Interleave([""] + ps, [c] + ds) == [c] + Interleave(ps, ds)
  {
    assert ([""] + ps)[1..] == ps;
    assert ([c] + ds)[1..] == ds;
  }

  /** A character put in front of the first piece comes first. */
  lemma InterleaveExtendFirst(c: char, ps: seq<string>, ds: seq<char>)
    requires |ps| == |ds| + 1
    ensures Interleave([[c] + ps[0]] + ps[1..], ds) == [c] + Interleave(ps, ds)
  {
    var qs := [[c] + ps[0]] + ps[1..];
    if ds != [] {
      assert qs[1..] == ps[1..];
      var j := Interleave(ps[1..], ds[1..]);
      assert [c] + ps[0] + [ds[0]] + j == [c] + (ps[0] + [ds[0]] + j);
    }
  }

  /** `ps` without its empty pieces at the end. */
  function DropTrailingEmpty(ps: seq<string>): (r: seq<string>)
    ensures |r| <= |ps| && r == ps[..|r|]
    ensures forall i :: |r| <= i < |ps| ==> ps[i] == ""
    ensures r == [] || r[|r| - 1] != ""
  {
    if ps == [] || ps[|ps| - 1] != "" then ps else DropTrailingEmpty(ps[..|ps| - 1])
  }

  /**
   * `s.split(regex)` with the class of `delimiters`: the whole string when no delimiter
   * occurs, otherwise the pieces without their trailing empty ones; an empty delimiter
   * string gives the class `[]`, which does not compile.
   */
  function Split(s: string, delimiters: string): (r: Result<seq<string>, SplitError>)
    ensures r.Err? <==> delimiters == []
    ensures r.Ok? ==> forall i, k :: 0 <= i < |r.value| && 0 <= k < |r.value[i]| ==> r.value[i][k] !in delimiters
  {
    if delimiters == [] then Err(UnclosedCharacterClass)
    else if forall k :: 0 <= k < |s| ==> s[k] !in delimiters then Ok([s])
    else Ok(DropTrailingEmpty(Pieces(s, delimiters)))
  }

  // ---------------------------------------------------------------------------------
  // The three `getElements` overloads.

  /** Every piece trimmed. */
  function TrimAll(ps: seq<string>): (r: seq<string>)
    ensures |r| == |ps| && forall i :: 0 <= i < |ps| ==> r[i] == Trim(ps[i])
  {
    seq(|ps|, i requires 0 <= i < |ps| => Trim(ps[i]))
  }

  lemma TrimAllSnoc(ps: seq<string>, i: nat)
    requires i < |ps|
    ensures TrimAll(ps[..i + 1]) == TrimAll(ps[..i]) + [Trim(ps[i])]
  {
  }

  /** The private `getElements(String, String)`: the string split, then each piece trimmed. */
  function SplitTrimmed(s: string, delimiters: string): Result<seq<string>, SplitError> {
    match Split(s, delimiters)
    case Err(e) => Err(e)
    case Ok(ps) => Ok(TrimAll(ps))
  }

  /** The private `getElements(String, String)`, which trims the pieces in place. */
  method SplitAndTrim(s: string, delimiters: string) returns (r: Result<seq<string>, SplitError>)
    ensures r == SplitTrimmed(s, delimiters)
  {
    var split := Split(s, delimiters);
    if split.Err? {
      return Err(split.error);
    }
    var ps := split.value;
    var es := new string[|ps|](i => if 0 <= i < |ps| then ps[i] else "");
    for i := 0 to es.Length
      invariant es[..i] == TrimAll(ps[..i]) && es[i..] == ps[i..]
    {
      TrimAllSnoc(ps, i);
      es[i] := Trim(es[i]);
      assert es[..i + 1] == es[..i] + [es[i]];
    }
    assert ps[..|ps|] == ps && es[..] == es[..es.Length];
    r := Ok(es[..]);
  }

  /** The non-empty strings of `ps`, in order. */
  function NonEmpty(ps: seq<string>): (r: seq<string>)
    ensures forall i :: 0 <= i < |r| ==> r[i] != ""
  {
    if ps == [] then []
    else (if ps[0] == "" then [] else [ps[0]]) + NonEmpty(ps[1..])
  }

  /** What one entry contributes: nothing when null or blank, else its non-empty trimmed pieces. */
  function EntryElements(entry: Option<string>, delimiters: string): Result<seq<string>, SplitError> {
    match entry
    case None => Ok([])
    case Some(e) =>
      var t := Trim(e);
      if t == "" then Ok([])
      else
        match SplitTrimmed(t, delimiters)
        case Err(err) => Err(err)
        case Ok(ps) => Ok(NonEmpty(ps))
  }

  /** `xs` in front of a successful result. */
  function Before(xs: seq<string>, r: Result<seq<string>, SplitError>): Result<seq<string>, SplitError> {
    match r
    case Err(e) => Err(e)
    case Ok(ys) => Ok(xs + ys)
  }

  /** The public `getElements(String[], String)`: the contributions of the entries, in order. */
  function AllElements(entries: seq<Option<string>>, delimiters: string): Result<seq<string>, SplitError> {
    if entries == [] then Ok([])
    else
      match EntryElements(entries[0], delimiters)
      case Err(e) => Err(e)
      case Ok(xs) => Before(xs, AllElements(entries[1..], delimiters))
  }

  /** `getElements(String[], String)`, appending each entry's elements to a list. */
  method GetElements(elements: seq<Option<string>>, delimiters: string) returns (r: Result<seq<string>, SplitError>)
    ensures r == AllElements(elements, delimiters)
  {
    var es: seq<string> := [];
    assert elements[0..] == elements;
    BeforeNothing(AllElements(elements, delimiters));
    for n := 0 to |elements|
      invariant AllElements(elements, delimiters) == Before(es, AllElements(elements[n..], delimiters))
    {
      var element := elements[n];
      if element.None? {
        EntrySkip(elements, n, delimiters);
        continue;
      }
      var e := Trim(element.value);
      if |e| == 0 {
        EntrySkip(elements, n, delimiters);
        continue;
      }
      var subs := SplitAndTrim(e, delimiters);
      EntryStep(elements, n, delimiters, es);
      if subs.Err? {
        return Err(subs.error);
      }
      es := AddNonEmpty(es, subs.value);
    }
    assert elements[|elements|..] == [];
    assert es + [] == es;
    r := Ok(es);
  }

  /** The inner loop of `getElements(String[], String)`: the non-empty pieces appended to `es`. */
  method AddNonEmpty(es: seq<string>, pieces: seq<string>) returns (r: seq<string>)
    ensures r == es + NonEmpty(pieces)
  {
    r := es;
    for k := 0 to |pieces|
      invariant r == es + NonEmpty(pieces[..k])
    {
      var sub := pieces[k];
      NonEmptyPrefix(pieces, k);
      if |sub| == 0 {
        continue;
      }
      r := r + [sub];
    }
    assert pieces[..|pieces|] == pieces;
  }

  /** `getElements(String[])`: the same with `;` as the only delimiter. */
  method GetElementsBySemicolon(elements: seq<Option<string>>) returns (r: Result<seq<string>, SplitError>)
    ensures r == AllElements(elements, ";")
    ensures r.Ok?
  {
    r := GetElements(elements, ";");
    AllElementsOk(elements, ";");
  }

  /** A non-blank entry's split either fails the whole call or adds its non-empty pieces. */
  lemma EntryStep(elements: seq<Option<string>>, n: nat, delimiters: string, es: seq<string>)
    requires n < |elements| && elements[n].Some? && Trim(elements[n].value) != ""
    ensures var subs := SplitTrimmed(Trim(elements[n].value), delimiters);
      var all := Before(es, AllElements(elements[n..], delimiters));
      if subs.Err? then all == Err(subs.error)
      else all == Before(es + NonEmpty(subs.value), AllElements(elements[n + 1..], delimiters))
  {
    AllElementsStep(elements, n, delimiters);
    var subs := SplitTrimmed(Trim(elements[n].value), delimiters);
    if subs.Ok? {
      BeforeBefore(es, NonEmpty(subs.value), AllElements(elements[n + 1..], delimiters));
    }
  }

  /** A null or blank entry contributes nothing. */
  lemma EntrySkip(elements: seq<Option<string>>, n: nat, delimiters: string)
    requires n < |elements| && (elements[n].None? || Trim(elements[n].value) == "")
    ensures AllElements(elements[n..], delimiters) == AllElements(elements[n + 1..], delimiters)
  {
    AllElementsStep(elements, n, delimiters);
    BeforeNothing(AllElements(elements[n + 1..], delimiters));
  }

  /** One more entry of the array. */
  lemma AllElementsStep(elements: seq<Option<string>>, n: nat, delimiters: string)
    requires n < |elements|
    ensures AllElements(elements[n..], delimiters)
         == match EntryElements(elements[n], delimiters)
            case Err(e) => Err(e)
            case Ok(xs) => Before(xs, AllElements(elements[n + 1..], delimiters))
  {
    assert elements[n..][1..] == elements[n + 1..];
  }

  lemma BeforeNothing(r: Result<seq<string>, SplitError>)
    ensures Before([], r) == r
  {
    if r.Ok? {
      assert [] + r.value == r.value;
    }
  }

  lemma BeforeBefore(xs: seq<string>, ys: seq<string>, r: Result<seq<string>, SplitError>)
    ensures Before(xs, Before(ys, r)) == Before(xs + ys, r)
  {
    if r.Ok? {
      assert xs + (ys + r.value) == xs + ys + r.value;
    }
  }

  /** Filtering one more piece of a prefix. */
  lemma NonEmptyPrefix(ps: seq<string>, k: nat)
    requires k < |ps|
    ensures NonEmpty(ps[..k + 1]) == NonEmpty(ps[..k]) + (if ps[k] == "" then [] else [ps[k]])
  {
    assert ps[..k + 1] == ps[..k] + [ps[k]];
    NonEmptySnoc(ps[..k], ps[k]);
  }

  lemma {:induction false} NonEmptySnoc(ps: seq<string>, p: string)
    ensures NonEmpty(ps + [p]) == NonEmpty(ps) + (if p == "" then [] else [p])
    decreases |ps|
  {
    if ps == [] {
      assert [] + [p] == [p];
      assert [p][1..] == [];
    } else {
      assert (ps + [p])[1..] == ps[1..] + [p];
      NonEmptySnoc(ps[1..], p);
    }
  }

  // ---------------------------------------------------------------------------------
  // Properties.

  /** With at least one delimiter the split cannot fail; with none, only blank and null entries pass. */
  lemma {:induction false} AllElementsOk(entries: seq<Option<string>>, delimiters: string)
    ensures AllElements(entries, delimiters).Ok?
        <==> delimiters != [] || forall i :: 0 <= i < |entries| ==> entries[i].None? || Trim(entries[i].value) == ""
    decreases |entries|
  {
    if entries != [] {
      AllElementsOk(entries[1..], delimiters);
      assert forall i :: 1 <= i < |entries| ==> entries[i] == entries[1..][i - 1];
    }
  }

  /** Every element is non-empty, trimmed and free of delimiter characters. */
  lemma {:induction false} AllElementsClean(entries: seq<Option<string>>, delimiters: string)
    ensures var r := AllElements(entries, delimiters);
      r.Ok? ==> forall i :: 0 <= i < |r.value| ==> Clean(r.value[i], delimiters)
    decreases |entries|
  {
    if entries != [] {
      AllElementsClean(entries[1..], delimiters);
      EntryElementsClean(entries[0], delimiters);
    }
  }

  /** What one entry contributes is clean. */
  lemma EntryElementsClean(entry: Option<string>, delimiters: string)
    ensures var r := EntryElements(entry, delimiters);
      r.Ok? ==> forall i :: 0 <= i < |r.value| ==> Clean(r.value[i], delimiters)
  {
    if entry.Some? && Trim(entry.value) != "" && delimiters != [] {
      var ps := Split(Trim(entry.value), delimiters).value;
      forall i | 0 <= i < |ps| {
        TrimAvoids(ps[i], delimiters);
      }
      NonEmptyClean(TrimAll(ps), delimiters);
    }
  }

  /** A non-empty, trimmed string without delimiter characters. */
  predicate Clean(e: string, delimiters: string) {
    e != "" && IsTrimmed(e) && forall k :: 0 <= k < |e| ==> e[k] !in delimiters
  }

  /** Trimming adds no character the original lacks. */
  lemma TrimAvoids(s: string, delimiters: string)
    requires forall k :: 0 <= k < |s| ==> s[k] !in delimiters
    ensures forall k :: 0 <= k < |Trim(s)| ==> Trim(s)[k] !in delimiters
  {
    var st := SkipBlanks(s, 0);
    var len := SkipBlanksBack(s, st, |s|);
    assert forall k :: 0 <= k < |Trim(s)| ==> Trim(s)[k] == s[st + k];
  }

  lemma {:induction false} NonEmptyClean(ps: seq<string>, delimiters: string)
    requires forall i :: 0 <= i < |ps| ==> IsTrimmed(ps[i]) && forall k :: 0 <= k < |ps[i]| ==> ps[i][k] !in delimiters
    ensures forall i :: 0 <= i < |NonEmpty(ps)| ==> Clean(NonEmpty(ps)[i], delimiters)
    decreases |ps|
  {
    if ps != [] {
      NonEmptyClean(ps[1..], delimiters);
    }
  }

  /** The entries are processed in order: the elements of `a + b` are those of `a`, then those of `b`. */
  lemma {:induction false} AllElementsAppend(a: seq<Option<string>>, b: seq<Option<string>>, delimiters: string)
    ensures AllElements(a + b, delimiters)
         == match AllElements(a, delimiters)
            case Err(e) => Err(e)
            case Ok(xs) => Before(xs, AllElements(b, delimiters))
    decreases |a|
  {
    if a == [] {
      assert a + b == b;
      BeforeNothing(AllElements(b, delimiters));
    } else {
      assert (a + b)[0] == a[0];
      assert (a + b)[1..] == a[1..] + b;
      AllElementsAppend(a[1..], b, delimiters);
      var x := EntryElements(a[0], delimiters);
      if x.Ok? {
        var rest := AllElements(a[1..], delimiters);
        if rest.Ok? {
          BeforeBefore(x.value, rest.value, AllElements(b, delimiters));
        }
      }
    }
  }

  /** A non-blank entry without delimiters yields exactly its trimmed self. */
  lemma SingleEntry(e: string, delimiters: string)
    requires delimiters != [] && Trim(e) != ""
    requires forall k :: 0 <= k < |e| ==> e[k] !in delimiters
    ensures AllElements([Some(e)], delimiters) == Ok([Trim(e)])
  {
    var t := Trim(e);
    TrimAvoids(e, delimiters);
    assert Split(t, delimiters) == Ok([t]);
    TrimTrimmed(t);
    assert TrimAll([t]) == [t];
    assert NonEmpty([t]) == [t] by {
      assert [t][1..] == [];
    }
    assert [Some(e)][1..] == [];
    assert AllElements([], delimiters) == Ok([]);
    assert [t] + [] == [t];
  }

  lemma {:induction false} NonEmptyAppend(a: seq<string>, b: seq<string>)
    ensures NonEmpty(a + b) == NonEmpty(a) + NonEmpty(b)
    decreases |a|
  {
    if a == [] {
      assert a + b == b;
    } else {
      assert (a + b)[0] == a[0];
      assert (a + b)[1..] == a[1..] + b;
      NonEmptyAppend(a[1..], b);
    }
  }

  /** Only empty strings left: nothing passes the filter. */
  lemma {:induction false} NonEmptyOfEmpties(ps: seq<string>)
    requires forall i :: 0 <= i < |ps| ==> ps[i] == ""
    ensures NonEmpty(ps) == []
    decreases |ps|
  {
    if ps != [] {
      NonEmptyOfEmpties(ps[1..]);
    }
  }

  /**
   * `split` drops trailing empty pieces, but the public `getElements` filters empty pieces
   * after trimming anyway, so dropping them makes no difference.
   */
  lemma DropTrailingEmptyIrrelevant(ps: seq<string>)
    ensures NonEmpty(TrimAll(DropTrailingEmpty(ps))) == NonEmpty(TrimAll(ps))
  {
    var r := DropTrailingEmpty(ps);
    var tail := ps[|r|..];
    assert ps == r + tail;
    TrimAllAppend(r, tail);
    TrimAllEmpties(tail);
    NonEmptyAppend(TrimAll(r), TrimAll(tail));
    NonEmptyOfEmpties(TrimAll(tail));
    assert NonEmpty(TrimAll(r)) + [] == NonEmpty(TrimAll(r));
  }

  lemma TrimAllAppend(a: seq<string>, b: seq<string>)
    ensures TrimAll(a + b) == TrimAll(a) + TrimAll(b)
  {
  }

  lemma TrimAllEmpties(ps: seq<string>)
    requires forall i :: 0 <= i < |ps| ==> ps[i] == ""
    ensures forall i :: 0 <= i < |TrimAll(ps)| ==> TrimAll(ps)[i] == ""
  {
    assert Trim("") == "";
  }
}
