# webx-restful URI templates and application configuration, in Dafny

This project models two parts of the webx-restful server.

- **`UriTemplate`** is an immutable URI template. It is built from a template parser's output. It substitutes values for its `{name}` placeholders in two ways:
  - leniently, from a map (`createURI(Map)`);
  - leniently and positionally, from an array range (`createURI(String[], offset, length)`), where a repeated name reuses its value.

  Its static builders assemble a whole URI from eight component templates: scheme, authority, user info, host, port, path, query and fragment. In the builders every placeholder must have a value. Values are encoded for their component. One value source serves all components. For arrays, that source is one cursor plus one map of names already bound.
- **`ApplicationConfig`** is the application's configuration object. The model covers:
  - its property map (`getProperty`, `isProperty`, `addProperties`, `setProperty`);
  - its other collections (classes, singletons, resources, resource finders, class loader);
  - the `Mutable`/`Immutable` internal state that applies or rejects each change;
  - the `getElements` helpers, which split delimiter-separated entries into trimmed, non-empty elements.

Modules:

- `Results`: `Option`, `Result` and `Outcome`. Java `null` is `None`, and a thrown exception is an `Err`/`Fail` value.
- `Placeholders`: the placeholder pattern `\{(\w[-\w\.]*)\}` applied leftmost-first (`Find`). It also gives the scan of a template into literal characters and placeholders (`Tokens`).
- `Substitution`: reference functions for the four substitution loops, over the token scan: `Fill`, `Positional`, `Strict` and `StrictPositional`. It also holds their properties.
- `UriTemplates`: the template value, its accessors, equality and matching facade, and the two lenient `createURI` loops. The loops are methods proved equal to the reference functions.
- `UriBuilder`:
  - the two `createURIComponent` loops;
  - the layout of separators and components that `createURIWithStringValues` emits (`Layout`), with its properties;
  - the two assembly methods, each proved equal to a fold over that layout.
- `Elements`: Java `trim`, the character-class `split` of `getElements`, and the `getElements` loops.
- `AppConfig`: the `ApplicationConfig` class with its fields, its internal state and its property accessors.

The collaborators outside this code are parameters:

- the template parser's normalisation, as `Codec.normalize` (`None` when the parser throws);
- `UriComponent.encode` and `UriComponent.contextualEncode`, as `Codec.encode` and `Codec.contextualEncode`;
- the compiled pattern's matcher and hash code, as function parameters.

## Model

U = `src/main/java/com/alibaba/webx/restful/model/uri/UriTemplate.java`, A = `src/main/java/com/alibaba/webx/restful/server/ApplicationConfig.java` (written out in full in each row).

| member | source | states |
|---|---|---|
| Placeholders.PlaceholderAt | src/main/java/com/alibaba/webx/restful/model/uri/UriTemplate.java:16 | A result `Some(end)` means the pattern matches from the position to `end`: `{`, a name accepted by `\w[-\w\.]*`, then `}` |
| Placeholders.PlaceholderAtExact | src/main/java/com/alibaba/webx/restful/model/uri/UriTemplate.java:16 | The result is `Some(end)` iff the pattern matches from the position to `end`. So a match is always found, and its end is the only one possible: the greedy name run must be closed by `}` |
| Placeholders.Find | src/main/java/com/alibaba/webx/restful/model/uri/UriTemplate.java:16 | `Matcher.find` from a position reports a match that starts at or after it and lies inside the string |
| Placeholders.FindLeftmost | src/main/java/com/alibaba/webx/restful/model/uri/UriTemplate.java:16 | That match is the leftmost one: no position in between matches. `None` means no match in the rest of the string |
| Placeholders.FindFirst | src/main/java/com/alibaba/webx/restful/model/uri/UriTemplate.java:16 | Conversely, a match with no match before it is the one `find` returns |
| Placeholders.FindSplitsTokens | src/main/java/com/alibaba/webx/restful/model/uri/UriTemplate.java:248-255 | One `find` splits the scan into the literal text before the match, the placeholder with its group-1 name, and the scan after the match end |
| Placeholders.FindNoneAllLiteral | src/main/java/com/alibaba/webx/restful/model/uri/UriTemplate.java:256 | When `find` fails, the rest of the template is literal text, appended as is |
| Placeholders.UnscanTokensFrom | src/main/java/com/alibaba/webx/restful/model/uri/UriTemplate.java:16 | Scanning loses nothing: writing the tokens back as text gives the template |
| Placeholders.TokenNamesValid | src/main/java/com/alibaba/webx/restful/model/uri/UriTemplate.java:16 | Every reported placeholder name is accepted by the group `\w[-\w\.]*` |
| Placeholders.NoBraceAllLiteral | src/main/java/com/alibaba/webx/restful/model/uri/UriTemplate.java:503-506 | A template without `{` has no placeholder, so the builders' shortcut (append it verbatim) agrees with substitution |
| Substitution.NonNull | src/main/java/com/alibaba/webx/restful/model/uri/UriTemplate.java:250-253 | A key has a substituted value exactly when the map holds a non-null value for it, and the value is that one |
| Substitution.FillAppend | src/main/java/com/alibaba/webx/restful/model/uri/UriTemplate.java:248-256 | Lenient substitution of concatenated token runs is the concatenation of their substitutions |
| Substitution.FillAgrees | src/main/java/com/alibaba/webx/restful/model/uri/UriTemplate.java:243-258 | Lenient substitution depends only on the values of the names the template mentions |
| Substitution.FillWithOwnPlaceholders | src/main/java/com/alibaba/webx/restful/model/uri/UriTemplate.java:243-258 | Giving each placeholder its own `{name}` text as value writes the template back unchanged |
| Substitution.PositionalProgress | src/main/java/com/alibaba/webx/restful/model/uri/UriTemplate.java:284-314 | Positional substitution moves the cursor only forward and only within the range. Names already bound keep their values |
| Substitution.PositionalIsZipFill | src/main/java/com/alibaba/webx/restful/model/uri/UriTemplate.java:284-314 | Within the array and with no nulls, positional substitution is lenient map substitution with the k-th distinct new name bound to the k-th value. It consumes one value per distinct new name, while values last |
| Substitution.Encoded | src/main/java/com/alibaba/webx/restful/model/uri/UriTemplate.java:513-521 | The map a strict component sees: exactly the non-null entries, each passed through the component encoder |
| Substitution.Strict | src/main/java/com/alibaba/webx/restful/model/uri/UriTemplate.java:500-530 | Strict map substitution succeeds iff every placeholder name has a non-null value. On success it equals lenient substitution of the encoded values. On failure it throws `NoValue` naming a placeholder without a value |
| Substitution.StrictPositional | src/main/java/com/alibaba/webx/restful/model/uri/UriTemplate.java:682-724 | Strict positional substitution keeps the cursor within the array and never moves it back. It keeps earlier bindings. It fails only with `NoValue` for one of its placeholders |
| Substitution.StrictPositionalIsZipFill | src/main/java/com/alibaba/webx/restful/model/uri/UriTemplate.java:696-723 | Strict positional substitution succeeds iff a non-null value is left in the array for each new name, in order of first occurrence. On success the k-th new name is bound to the encoded k-th value from the cursor, earlier bindings are kept, the cursor moves past those values, and the text is lenient substitution with those bindings. On failure it throws `NoValue` naming the first new name whose slot is null or past the array |
| Substitution.FirstMissingIsFirst | src/main/java/com/alibaba/webx/restful/model/uri/UriTemplate.java:704-712 | The slot the failure names is the first one missing: every slot before it holds a value, and no slot is missing iff all values are there |
| Substitution.StrictPositionalConsistent | src/main/java/com/alibaba/webx/restful/model/uri/UriTemplate.java:696-712 | On success every placeholder is bound, and each occurrence is rendered with the one value bound to its name |
| Substitution.StrictPositionalConsumesOncePerName | src/main/java/com/alibaba/webx/restful/model/uri/UriTemplate.java:700-712 | The values consumed equal the number of newly bound names |
| UriTemplates.FromParser | src/main/java/com/alibaba/webx/restful/model/uri/UriTemplate.java:89-103 | The constructor copies the parser's fields and builds the pattern from its regex and group indexes. `endsWithSlash` holds iff the template ends in `/`. An empty template is rejected |
| UriTemplates.EmptyIsEmpty | src/main/java/com/alibaba/webx/restful/model/uri/UriTemplate.java:51-57 | The `EMPTY` sentinel has empty text, no variables and zero counts, and substitutes to "" |
| UriTemplates.Contains | src/main/java/com/alibaba/webx/restful/model/uri/UriTemplate.java:156-160 | The membership loop returns true iff the name occurs in the list |
| UriTemplates.IsTemplateVariablePresent | src/main/java/com/alibaba/webx/restful/model/uri/UriTemplate.java:155-163 | True iff the name is one of the template variables |
| UriTemplates.NumberOfTemplateVariables | src/main/java/com/alibaba/webx/restful/model/uri/UriTemplate.java:188-190 | Zero iff no name is a template variable |
| UriTemplates.Equals | src/main/java/com/alibaba/webx/restful/model/uri/UriTemplate.java:337-345 | Equal iff the other object is a template whose pattern has the same regular-expression source; group indexes do not take part |
| UriTemplates.EqualsConsistent | src/main/java/com/alibaba/webx/restful/model/uri/UriTemplate.java:326-345 | Equality is reflexive, symmetric and transitive. Equal templates have equal hash codes, the hash being taken of the pattern source. Templates with the same pattern source are equal |
| UriTemplates.SameRegexEqual | src/main/java/com/alibaba/webx/restful/model/uri/UriTemplate.java:326-345 | Two templates parsed to the same regular expression are equal and hash equally, whatever else their parses hold |
| UriTemplates.MatchToMap | src/main/java/com/alibaba/webx/restful/model/uri/UriTemplate.java:205-212 | A null output map throws `IllegalArgumentException`. Otherwise the pattern decides, given the template variables |
| UriTemplates.MatchToList | src/main/java/com/alibaba/webx/restful/model/uri/UriTemplate.java:227-233 | A null output list throws. Otherwise the pattern decides |
| UriTemplates.CreateUri | src/main/java/com/alibaba/webx/restful/model/uri/UriTemplate.java:243-258 | The `find` loop returns the lenient substitution of the normalized template. A missing or null value gives the empty string |
| UriTemplates.CreateUriFromRange | src/main/java/com/alibaba/webx/restful/model/uri/UriTemplate.java:284-314 | The loop returns positional substitution over `[offset, offset + length)` with reuse of repeated names, or throws `IndexOutOfBounds` for an index outside the array |
| UriTemplates.SubstituteNext | src/main/java/com/alibaba/webx/restful/model/uri/UriTemplate.java:298-309 | One placeholder of that loop: a name seen before repeats its value, a slot inside the range is taken (and bound when non-null), a slot outside the array throws `IndexOutOfBounds`, and past the range nothing is taken; positional substitution of the rest goes on from the resulting buffer, cursor and bindings |
| UriTemplates.PositionalInRangeOk | src/main/java/com/alibaba/webx/restful/model/uri/UriTemplate.java:284-314 | A range inside the array never throws |
| UriTemplates.CreateUriFromValues | src/main/java/com/alibaba/webx/restful/model/uri/UriTemplate.java:269-271 | The whole array as the range: it never throws, and the result is that positional substitution |
| UriTemplates.LenientMissingValueIsEmpty | src/main/java/com/alibaba/webx/restful/model/uri/UriTemplate.java:250-253 | "/users/{id}" with no value for `id` gives "/users/" |
| UriTemplates.StrictMissingValueThrows | src/main/java/com/alibaba/webx/restful/model/uri/UriTemplate.java:522-524 | The strict form of the same template throws, naming `id` |
| UriTemplates.CreateUriWithOwnPlaceholders | src/main/java/com/alibaba/webx/restful/model/uri/UriTemplate.java:243-258 | With each name mapped to its own `{name}`, `createURI(Map)` returns the normalized template |
| UriTemplates.StrictAgreesWithLenient | src/main/java/com/alibaba/webx/restful/model/uri/UriTemplate.java:500-530 | With an identity encoder and every name given, strict and lenient map substitution agree. With a name missing, the strict one throws |
| UriTemplates.RepeatedNameReusesValue | src/main/java/com/alibaba/webx/restful/model/uri/UriTemplate.java:296-299 | "/{x}/{x}" with ["p", "q"] gives "/p/p" and consumes one value |
| Substitution.PositionalVarNull | src/main/java/com/alibaba/webx/restful/model/uri/UriTemplate.java:301-305 | For any template, bindings and cursor: a new name whose slot inside the range is null consumes the slot, appends nothing and binds nothing, and substitution goes on at the next slot |
| UriTemplates.NullValueIsNotRecorded | src/main/java/com/alibaba/webx/restful/model/uri/UriTemplate.java:301-305 | With [null, "q"], the null consumes its slot without binding `x`, so the repeat takes "q": "//q" |
| UriBuilder.AppendComponentFromMap | src/main/java/com/alibaba/webx/restful/model/uri/UriTemplate.java:500-530 | The loop appends the component's strict substitution (a `{`-free template verbatim), or throws naming the first placeholder without a value |
| UriBuilder.PathMissingValueThrows | src/main/java/com/alibaba/webx/restful/model/uri/UriTemplate.java:500-524 | Through the builder's component step: a path template whose placeholder has no value throws naming it, with either encoder, when the parser leaves the template unchanged |
| UriBuilder.ComponentFromArray | src/main/java/com/alibaba/webx/restful/model/uri/UriTemplate.java:682-724 | A component only appends text. It moves the shared cursor forward within the array and keeps earlier bindings. A `{`-free template leaves cursor and bindings alone. It fails only with `NoValue` or an unparsable template |
| UriBuilder.AppendComponentFromArray | src/main/java/com/alibaba/webx/restful/model/uri/UriTemplate.java:682-691 | The component step: a `{`-free template is appended verbatim with cursor and bindings unchanged. An unparsable template throws. Otherwise the loop runs on the normalized template |
| UriBuilder.SubstituteFromArray | src/main/java/com/alibaba/webx/restful/model/uri/UriTemplate.java:692-723 | The `find` loop computes strict positional substitution. It returns the appended text, the new cursor and the extended name map, or throws naming a placeholder whose value is null or beyond the array |
| UriBuilder.LayoutKindsInOrder | src/main/java/com/alibaba/webx/restful/model/uri/UriTemplate.java:456-498 | The components emitted, in order: scheme, then user info/host/port when any is given (else the authority), then path, query, fragment. Each is under its own emptiness rule |
| UriBuilder.LayoutKinds | src/main/java/com/alibaba/webx/restful/model/uri/UriTemplate.java:458-496 | A component is emitted iff its rule holds. Scheme, host and path need only be non-null. User info, port, query and fragment must also be non-empty. The authority is emitted only without user info, host or port |
| UriBuilder.LayoutWellPlaced | src/main/java/com/alibaba/webx/restful/model/uri/UriTemplate.java:458-496 | Each emitted component uses its own template and the caller's encode flag, except scheme and port, which are always contextually encoded. Each sits between its separators (`scheme:`, `//user@`, `host`, `:port`, `//authority`, `?query`, `#fragment`). Components follow URI order, each at most once |
| UriBuilder.LayoutSeparators | src/main/java/com/alibaba/webx/restful/model/uri/UriTemplate.java:462-495 | `//` appears iff user info, host, port or authority is non-null. `?` appears iff the query is non-empty. `#` appears iff the fragment is non-empty |
| UriBuilder.AppendSchemeFromMap | src/main/java/com/alibaba/webx/restful/model/uri/UriTemplate.java:458-460 | The scheme block appends the scheme's layout parts |
| UriBuilder.AppendServerFromMap | src/main/java/com/alibaba/webx/restful/model/uri/UriTemplate.java:465-477 | The user-info, host and port blocks append their layout parts |
| UriBuilder.AppendAuthorityFromMap | src/main/java/com/alibaba/webx/restful/model/uri/UriTemplate.java:462-482 | The authority branch appends its layout parts |
| UriBuilder.AppendTailFromMap | src/main/java/com/alibaba/webx/restful/model/uri/UriTemplate.java:484-496 | The path, query and fragment blocks append their layout parts |
| UriBuilder.CreateUriFromMap | src/main/java/com/alibaba/webx/restful/model/uri/UriTemplate.java:451-498 | `createURIWithStringValues` with a map: the layout rendered part by part, stopping at the first component that throws |
| UriBuilder.RenderFromMapSucceeds | src/main/java/com/alibaba/webx/restful/model/uri/UriTemplate.java:451-530 | Building from a map succeeds iff every emitted component's template parses and every placeholder in it has a non-null value |
| UriBuilder.DropNulls | src/main/java/com/alibaba/webx/restful/model/uri/UriTemplate.java:395-400 | The copied map holds exactly the non-null entries, with their values |
| UriBuilder.RenderFromMapSameLookups | src/main/java/com/alibaba/webx/restful/model/uri/UriTemplate.java:391-404 | Two maps with the same lookups build the same URI, or fail the same way |
| UriBuilder.CreateUriFromObjectMap | src/main/java/com/alibaba/webx/restful/model/uri/UriTemplate.java:391-404 | Dropping the null entries first leaves the result unchanged |
| UriBuilder.AppendSchemeFromArray | src/main/java/com/alibaba/webx/restful/model/uri/UriTemplate.java:637-640 | The scheme block applies the scheme's layout parts to text, cursor and bindings |
| UriBuilder.AppendServerFromArray | src/main/java/com/alibaba/webx/restful/model/uri/UriTemplate.java:645-659 | The user-info, host and port blocks apply their layout parts |
| UriBuilder.AppendAuthorityFromArray | src/main/java/com/alibaba/webx/restful/model/uri/UriTemplate.java:642-664 | The authority branch applies its layout parts |
| UriBuilder.AppendTailFromArray | src/main/java/com/alibaba/webx/restful/model/uri/UriTemplate.java:666-678 | The path, query and fragment blocks apply their layout parts |
| UriBuilder.RenderFromArray | src/main/java/com/alibaba/webx/restful/model/uri/UriTemplate.java:628-680 | Across the components, the shared cursor moves only forward within the array, bindings are kept, and text only grows |
| UriBuilder.CreateUriFromArray | src/main/java/com/alibaba/webx/restful/model/uri/UriTemplate.java:628-680 | `createURIWithStringValues` with an array: the layout rendered with one cursor and one binding map shared by all components |
| UriBuilder.RenderFromArrayConsumesOncePerName | src/main/java/com/alibaba/webx/restful/model/uri/UriTemplate.java:628-724 | Across all components, exactly one array value is consumed per distinct name. A name repeated in a later component reuses its earlier value |
| Elements.Trim | src/main/java/com/alibaba/webx/restful/server/ApplicationConfig.java:575 | `String.trim`: the result starts and ends with a character above `' '` (or is empty) and is no longer than the input |
| Elements.TrimRemovesOnlyBlanks | src/main/java/com/alibaba/webx/restful/server/ApplicationConfig.java:575 | The input is the trimmed string with characters ≤ `' '` before and after it |
| Elements.TrimTrimmed | src/main/java/com/alibaba/webx/restful/server/ApplicationConfig.java:600 | Trimming an already trimmed string changes nothing |
| Elements.Pieces | src/main/java/com/alibaba/webx/restful/server/ApplicationConfig.java:594-599 | Splitting at any delimiter character gives at least one piece, and no piece contains a delimiter |
| Elements.JoinPieces | src/main/java/com/alibaba/webx/restful/server/ApplicationConfig.java:594-599 | For any delimiter set, the input is cut at one delimiter character per boundary between pieces, each cut being a member of the set; interleaving the pieces with those cut characters gives the input back, so no character is lost or reordered |
| Elements.DropTrailingEmpty | src/main/java/com/alibaba/webx/restful/server/ApplicationConfig.java:599 | `split` drops only trailing empty pieces: the result is a prefix, and everything dropped is empty |
| Elements.Split | src/main/java/com/alibaba/webx/restful/server/ApplicationConfig.java:594-599 | Splitting fails (`[]` is not a valid character class) iff the delimiter string is empty. Otherwise no piece contains a delimiter |
| Elements.SplitAndTrim | src/main/java/com/alibaba/webx/restful/server/ApplicationConfig.java:593-604 | The private `getElements` returns the split pieces, each trimmed in place, in order |
| Elements.NonEmpty | src/main/java/com/alibaba/webx/restful/server/ApplicationConfig.java:577-578 | Filtered pieces are never empty |
| Elements.AddNonEmpty | src/main/java/com/alibaba/webx/restful/server/ApplicationConfig.java:576-579 | The inner loop appends the non-empty pieces, in order |
| Elements.GetElements | src/main/java/com/alibaba/webx/restful/server/ApplicationConfig.java:571-583 | The loop returns, in input order, the non-empty trimmed pieces of each entry. Null and blank entries contribute nothing |
| Elements.GetElementsBySemicolon | src/main/java/com/alibaba/webx/restful/server/ApplicationConfig.java:558-561 | The one-argument overload is the two-argument one with `";"`, and it never fails |
| Elements.AllElementsOk | src/main/java/com/alibaba/webx/restful/server/ApplicationConfig.java:571-583 | `getElements` succeeds iff the delimiters are non-empty or every entry is null or blank |
| Elements.AllElementsClean | src/main/java/com/alibaba/webx/restful/server/ApplicationConfig.java:563-583 | Every returned element is non-empty, trimmed, and free of delimiter characters |
| Elements.AllElementsAppend | src/main/java/com/alibaba/webx/restful/server/ApplicationConfig.java:572-582 | The elements of concatenated entry arrays are the concatenation of their elements |
| Elements.SingleEntry | src/main/java/com/alibaba/webx/restful/server/ApplicationConfig.java:571-583 | One non-blank entry without delimiters gives exactly its trimmed form |
| Elements.DropTrailingEmptyIrrelevant | src/main/java/com/alibaba/webx/restful/server/ApplicationConfig.java:577-578 | Dropping trailing empty pieces does not change the filtered result |
| AppConfig.EqualsIgnoreCase | src/main/java/com/alibaba/webx/restful/server/ApplicationConfig.java:163 | Same length, and equal characters up to ASCII case |
| AppConfig.ParseBoolean | src/main/java/com/alibaba/webx/restful/server/ApplicationConfig.java:163 | True iff the string is "true" in any letter case |
| AppConfig.ApplicationConfig.constructor | src/main/java/com/alibaba/webx/restful/server/ApplicationConfig.java:80-94 | All collections start empty, the class loader is the context loader, and the internal state starts mutable |
| AppConfig.ApplicationConfig.Lock | src/main/java/com/alibaba/webx/restful/server/ApplicationConfig.java:96-98 | `lock()` changes nothing |
| AppConfig.ApplicationConfig.AddClasses | src/main/java/com/alibaba/webx/restful/server/ApplicationConfig.java:628-630 | Immutable: throws `IllegalStateException`, nothing changes. Mutable: the classes are added and nothing else changes |
| AppConfig.ApplicationConfig.AddResources | src/main/java/com/alibaba/webx/restful/server/ApplicationConfig.java:633-635 | The same rule for resources |
| AppConfig.ApplicationConfig.AddFinder | src/main/java/com/alibaba/webx/restful/server/ApplicationConfig.java:138-140 | The same rule for one resource finder |
| AppConfig.ApplicationConfig.AddProperties | src/main/java/com/alibaba/webx/restful/server/ApplicationConfig.java:149-151 | Immutable: throws, nothing changes. Mutable: given keys are overwritten, other keys keep their values, and `getProperty` returns the new values |
| AppConfig.ApplicationConfig.AddSingletons | src/main/java/com/alibaba/webx/restful/server/ApplicationConfig.java:648-650 | The same rule for singletons |
| AppConfig.ApplicationConfig.SetClassLoader | src/main/java/com/alibaba/webx/restful/server/ApplicationConfig.java:653-655 | The same rule for the class loader (replaced) |
| AppConfig.ApplicationConfig.SetProperty | src/main/java/com/alibaba/webx/restful/server/ApplicationConfig.java:658-660 | Immutable: throws, nothing changes. Mutable: that key now maps to the value, and `getProperty` of every other key is unchanged |
| AppConfig.ApplicationConfig.SetApplication | src/main/java/com/alibaba/webx/restful/server/ApplicationConfig.java:663-665 | Always fails and changes nothing: not modifiable when immutable, unsupported (`_setApplication`) when mutable |
| AppConfig.ApplicationConfig.GetProperty | src/main/java/com/alibaba/webx/restful/server/ApplicationConfig.java:153-155 | Returns the stored value. Returns null iff the key is absent or stores null |
| AppConfig.ApplicationConfig.IsProperty | src/main/java/com/alibaba/webx/restful/server/ApplicationConfig.java:157-168 | False for an absent key. Fails (null `toString`) iff the stored value is null. True iff the value is `Boolean.TRUE` or a non-Boolean whose string form is "true" ignoring case |
| AppConfig.NeverLocked | src/main/java/com/alibaba/webx/restful/server/ApplicationConfig.java:96-98 | A new configuration stays mutable through `lock()`, so `addFinder` and `addProperties` take effect |

## Left out

- `UriTemplate(String)` runs the template parser (`UriTemplateParser`), which is not part of this model. The model starts from the parser's output (`ParsedTemplate`). Normalisation in the builders is a `Codec` parameter, and a parser failure is `InvalidTemplate`.
- Pattern matching (`PatternWithGroups.match`), its `hashCode`, `toString`, and `COMPARATOR` (`UriTemplateComparator`) are outside this model. The matcher and hash are function parameters.
- `UriComponent.encode` and `contextualEncode` are parameters; percent-encoding itself is not modelled.
- `UriTemplates.HashCode` has no contract of its own. It is a hash of the pattern's regular-expression source, with the string hash a parameter; its property (equal templates hash equally) is stated in `EqualsConsistent`.
- UriTemplates.CreateUriFromRange: integers are unbounded, so the Java `int` overflow of `offset + length` is not modelled.
- The nine-argument `createURI`/`createURIWithStringValues` overloads without an authority are the ten-argument ones with a null authority. They are not separate members; pass `authority := None` to `Components`.
- The `Object[]` and `Map<String, ? extends Object>` overloads call `toString` on each value. Values are modelled as strings from the start, and a null object stays `None`. `CreateUriFromObjectMap` models dropping nulls from the map; for arrays the copy is position for position, so `CreateUriFromArray` covers it.
- Null arguments where Java would throw `NullPointerException` are not modelled. This covers a null value map or array, a null template string, and null entries passed to the collection mutators.
- `ApplicationConfig.init`, resource scanning, `buildResource` and the rest of the reflection, annotation, Spring-lookup, class-loading and logging code are outside this model. So are the getters that only return fields, the public `addResources(List)`/`addResource`, `invalidateCache` (empty) and the cached class and singleton sets.
- `AppConfig.EqualsIgnoreCase` compares ASCII letters without case. Java's `equalsIgnoreCase` also folds non-ASCII letters, but none of them folds to a letter of "true".
- `Elements.Trim`: strings are sequences of Unicode scalar values (Dafny `char`), not of UTF-16 code units as in Java. No result changes, because every blank character (at most `' '`) and every delimiter is a single character of the Basic Multilingual Plane, and a surrogate pair is never cut by trimming or splitting at such characters.
- `Elements.Split` models the regex `[` + quoted delimiter characters + `]` as "split at any delimiter character". The regex engine is not modelled. An empty delimiter string gives the invalid class `[]`, which Java rejects with `PatternSyntaxException`, here `UnclosedCharacterClass`. Trailing empty pieces are dropped as `String.split` does.
- `Elements.GetElements` collects into a sequence. Java's `LinkedList` and its conversion to an array are not modelled.
- Only the `Mutable` state is reachable: `lock()` is empty and nothing assigns `Immutable`. The `Immutable` branch is modelled from its code anyway.
- Property values other than `Boolean` are modelled by their `toString` (`Value.Text`).
