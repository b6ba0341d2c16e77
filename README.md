# Galaxy Community: search, design choice and planet store in Dafny

This project models the three pieces of logic in the Galaxy Community
front-end that are not rendering, and proves what they promise.

- **The community search** (`GET /api/search?q=<term>`). A missing or blank
  query gets the 400 response. Otherwise the query is lower-cased and
  trimmed. Every community whose lower-cased name, description or some
  interest tag contains the query is kept. Name matches come first, then
  higher member counts. Each record is reduced to `id`, `name`,
  `description` and `imageUrl`. The response carries the results, their
  number and the trimmed query.
  - Module `Search`, over any list of community records.
  - The twelve built-in records are the constant `MockCommunities`.
- **The design registry.** A hex colour is looked up in a five-entry table
  of colour names, with Peach as the fallback. The surface type gets its
  first character upper-cased. The two strings joined form a design key,
  and the key selects one of twenty hand-made designs or the plain fallback
  sphere.
  - Module `DesignRegistry`; the outcome is `Known(key)` or `Fallback`.
- **The planet store.** One record of appearance settings with fixed
  defaults, changed in place by six actions. Each action writes one field.
  - Module `Store`: class `PlanetStore`, with one `modifies` frame per
    field.
- **String primitives.** `toLowerCase`, `toUpperCase` of one character,
  `trim` and `includes`.
  - Module `JsString`.
  - Case mapping covers ASCII letters. `trim` removes exactly the code
    points ECMAScript counts as WhiteSpace or LineTerminator, non-ASCII
    ones included.

## Main results

- **Search.**
  - `Search.Search`'s contract gives the full outcome. The result is
    `Invalid` exactly for a missing or all-white-space query, with the
    source's error texts.
  - Otherwise `total` is the number of results, and `query` is the trimmed
    query, not lower-cased.
  - The results are the projection of `Search.Ranked`, taken at the
    lower-cased trimmed query.
- **Ranking.** `Search.Ranked` states four things:
  - the ranked list holds every matching record exactly as often as the
    input does, and nothing else;
  - name matches precede the others;
  - member counts never increase within each group;
  - records of equal rank keep their input order.
- **Soundness, completeness and case.**
  - `SearchIsSound` and `SearchIsComplete` give both directions of "a record
    is in the results exactly when it matches".
  - `SearchIgnoresCase` shows that queries differing only in letter case
    give identical results and totals; only the echoed query differs.
- **Sorting.** `sort` on the filtered array is modelled as a stable
  insertion sort that calls the source's comparator.
  - ECMAScript has required `Array.prototype.sort` to be stable since
    ES2019.
  - `StableSortIsUnique` proves that only one order is both sorted by that
    comparator and stable, so the model's order is the order any stable
    sort produces.
- **Design registry.**
  - `Registry`: a known design is chosen exactly when the
    capitalised surface is one of Clay, Moss, Sand and Lavender, and it is
    the design named by the colour name followed by that texture name.
  - `StoreStateHasDesign`: every state the store can reach picks a known
    design.
- **Store.** Every action keeps the store invariant:
  - the surface is one of the four textures;
  - `isPulsing` and `bobbingIntensity` keep their defaults.

  Each action's postcondition gives the whole new state.

## Model

| member | source | states |
|---|---|---|
| `JsString.LowerChar` | app/api/search/route.ts:147 | upper-case ASCII letters move down by 32 into 'a'..'z'; every other character is unchanged |
| `JsString.UpperChar` | components/canvas/designs/DesignRegistry.tsx:58 | lower-case ASCII letters move up by 32 into 'A'..'Z'; every other character is unchanged |
| `JsString.Lower` | app/api/search/route.ts:147 | same length; each character is lower-cased; no upper-case letter remains |
| `JsString.LowerIdempotent` | app/api/search/route.ts:147 | lower-casing twice is lower-casing once |
| `JsString.LowerKeepsSpace` | app/api/search/route.ts:147 | lower-casing a character neither makes nor unmakes white space |
| `JsString.TrimStart` | app/api/search/route.ts:136 | the result is the suffix left after a removed part that is all white space, and it does not start with white space |
| `JsString.TrimEnd` | app/api/search/route.ts:136 | the result is the prefix left before a removed part that is all white space, and it does not end with white space |
| `JsString.Trim` | app/api/search/route.ts:136 | the result is a slice of the input with only white space around it; it neither starts nor ends with white space; it is empty exactly when the input is all white space |
| `JsString.TrimLowerCommute` | app/api/search/route.ts:147 | trimming the lower-cased string equals lower-casing the trimmed one |
| `JsString.IsSpace` | app/api/search/route.ts:136 | the characters `trim` removes, the ECMAScript WhiteSpace and LineTerminator code points; none of them has a case, so case mapping leaves them alone |
| `JsString.Includes` | app/api/search/route.ts:152-159 | the left-to-right scan used for every `includes` call succeeds exactly when the pattern occurs at some offset of the text (so the empty pattern always occurs) |
| `Search.Normalize` | app/api/search/route.ts:147 | the normalised query is the lower-cased trimmed query, and it is empty exactly when the query is all white space |
| `Search.AnyInterestMatchIffSome` | app/api/search/route.ts:158-160 | `some` holds exactly when some interest, lower-cased, contains the query |
| `Search.Matches` | app/api/search/route.ts:150-164 | a record matches exactly when the query occurs in its lower-cased name, in its lower-cased description, or in some lower-cased interest |
| `Search.FilterMatchesCounts` | app/api/search/route.ts:150-164 | the filter keeps each matching record as many times as it occurs in the input, and no non-matching record |
| `Search.FilterConcat` | app/api/search/route.ts:150-164 | filtering distributes over concatenation, so the input order is kept |
| `Search.Compare` | app/api/search/route.ts:167-176 | `a` sorts before `b` exactly when only `a`'s name matches, or both or neither match and `a` has more members; the result is zero exactly on equal rank (same name-match flag and member count) |
| `Search.CompareIsConsistent` | app/api/search/route.ts:167-176 | the comparator is antisymmetric in sign and transitive, so with zero on equal rank it is a total preorder |
| `Search.InsertCounts` | app/api/search/route.ts:167-176 | inserting adds exactly the inserted record to the multiset |
| `Search.InsertKeepsSorted` | app/api/search/route.ts:167-176 | inserting into a list sorted by the comparator keeps it sorted |
| `Search.InsertClasses` | app/api/search/route.ts:167-176 | the inserted record precedes the records of its own rank, and every rank class keeps its order |
| `Search.SortPermutes` | app/api/search/route.ts:167-176 | sorting is a permutation |
| `Search.SortIsSorted` | app/api/search/route.ts:167-176 | every earlier result compares not-after every later one |
| `Search.SortIsStable` | app/api/search/route.ts:167-176 | records of equal rank stay in their input order |
| `Search.StableSortIsUnique` | app/api/search/route.ts:167-176 | any list sorted by the comparator whose rank classes are those of the input, in the same order, is the model's sort |
| `Search.FilterKeepsRankClasses` | app/api/search/route.ts:150-176 | filtering then taking a rank class is taking the class then filtering |
| `Search.Ranked` | app/api/search/route.ts:150-176 | the result is the input's matching records with their multiplicities; name matches come before non-name matches; within each group members never increase; records of equal rank keep their input order |
| `Search.ProjectAll` | app/api/search/route.ts:179-184 | one result per record, in order, each holding exactly the record's id, name, description and imageUrl |
| `Search.Search` | app/api/search/route.ts:136-191 | `Invalid` with the two source texts exactly when the query is missing or all white space; otherwise `total` is the number of results, `query` is the trimmed query and not empty, and the results are the projected ranking at the lower-cased trimmed query |
| `Search.SearchIsSound` | app/api/search/route.ts:147-164 | every result is the projection of an input record that matches the normalised query |
| `Search.SearchIsComplete` | app/api/search/route.ts:150-164 | every input record that matches the normalised query has its projection among the results |
| `Search.SearchIgnoresCase` | app/api/search/route.ts:147-159 | two queries with the same lower-cased form are both accepted or both rejected, and when accepted give the same results and total |
| `Search.BlankQueriesRejected` | app/api/search/route.ts:136-144 | a missing query, the empty query and a query of spaces and a tab get the 400 response on the built-in list |
| `Search.RankedMembers` | app/api/search/route.ts:150-176 | a record is among the ranked ones exactly when it is in the list and matches the query |
| `Search.PlainQueryFindsName` | app/api/search/route.ts:136-164 | a non-empty lower-case query without white space at its ends is accepted and reports every record whose lower-cased name contains it |
| `Search.BicycleQueryFindsRiders` | app/api/search/route.ts:147-164 | on any list holding a record named "Bicycle Riders", the query "bicycle" is accepted and that record's projection is among the results |
| `Search.MockListHoldsRiders` | app/api/search/route.ts:10-107 | the built-in list has twelve records, its ninth is "Bicycle Riders", and its projection has that record's id, name, description and image |
| `DesignRegistry.ColorName` | components/canvas/designs/DesignRegistry.tsx:57 | the colour name is always one of the five names |
| `DesignRegistry.Capitalize` | components/canvas/designs/DesignRegistry.tsx:58 | same length; only the first character is upper-cased; all others are unchanged |
| `DesignRegistry.ColorMapIsOneToOne` | components/canvas/designs/DesignRegistry.tsx:38-44 | different codes have different names, and the names given are exactly the five colour names |
| `DesignRegistry.UnknownCodeIsPeach` | components/canvas/designs/DesignRegistry.tsx:57 | a code absent from the table is named Peach |
| `DesignRegistry.LookupIsCaseSensitive` | components/canvas/designs/DesignRegistry.tsx:38-57 | "#b28dff", Lavender's code in lower case, is named Peach |
| `DesignRegistry.KeySplitsUniquely` | components/canvas/designs/DesignRegistry.tsx:58 | no colour name is a prefix of another, so a key determines its colour name and the rest |
| `DesignRegistry.Dispatch` | components/canvas/designs/DesignRegistry.tsx:61-98 | a known design is always the one named by the key |
| `DesignRegistry.DispatchKnowsNamedPairs` | components/canvas/designs/DesignRegistry.tsx:61-90 | every colour name followed by a texture name is one of the twenty cases, and selects the design of that name |
| `DesignRegistry.DispatchRejectsOtherSuffixes` | components/canvas/designs/DesignRegistry.tsx:61-98 | a colour name followed by anything other than a texture name reaches the fallback |
| `DesignRegistry.Registry` | components/canvas/designs/DesignRegistry.tsx:56-99 | a known design is chosen exactly when the capitalised surface is a texture name, and then it is colour name + capitalised surface |
| `DesignRegistry.CapitalizedTextures` | components/canvas/designs/DesignRegistry.tsx:58 | capitalising clay, moss, sand or lavender gives a texture name |
| `DesignRegistry.TexturedSurfaceIsKnown` | components/canvas/designs/DesignRegistry.tsx:57-90 | any colour with one of the four surfaces selects the design named colour name + capitalised surface; for a code in the table, that is its table name |
| `DesignRegistry.UnknownColourUsesPeach` | components/canvas/designs/DesignRegistry.tsx:57-66 | an unknown code with one of the four surfaces selects the matching Peach design, never the fallback |
| `DesignRegistry.EmptySurfaceFallsBack` | components/canvas/designs/DesignRegistry.tsx:58-98 | an empty surface type reaches the fallback whatever the colour |
| `DesignRegistry.StoreStateHasDesign` | components/visuals/PlanetPreview.tsx:55-59 | the registry, given the store's colour and surface, chooses a known design in every valid store state |
| `Store.PlanetStore.constructor` | store/useAppStore.ts:29-38 | the new store holds exactly the defaults and satisfies the invariant |
| `Store.PlanetStore.SetColor` | store/useAppStore.ts:40 | `color` becomes the argument exactly; nothing else changes; the invariant is kept |
| `Store.PlanetStore.SetSurfaceType` | store/useAppStore.ts:41 | `surfaceType` becomes the argument, which is one of the four textures; nothing else changes; the invariant is kept |
| `Store.PlanetStore.ToggleRings` | store/useAppStore.ts:42 | `hasRings` is negated; nothing else changes; the invariant is kept |
| `Store.PlanetStore.ToggleMoons` | store/useAppStore.ts:43 | `hasMoons` is negated; nothing else changes; the invariant is kept |
| `Store.PlanetStore.SetRotationLevel` | store/useAppStore.ts:44 | `rotationLevel` becomes the argument unclamped; nothing else changes; the invariant is kept |
| `Store.PlanetStore.SetPlanetDescription` | store/useAppStore.ts:45 | `description` becomes the argument; nothing else changes; the invariant is kept |
| `Store.ToggleRingsTwice` | store/useAppStore.ts:42 | toggling the rings twice restores the whole state |
| `Store.ToggleMoonsTwice` | store/useAppStore.ts:43 | toggling the moons twice restores the whole state |
| `Search.FilterMatches` | app/api/search/route.ts:150-164 | no contract of its own: the `filter` call; `FilterMatchesCounts` and `FilterConcat` give its contract |
| `Search.Insert` | app/api/search/route.ts:167 | no contract of its own: one insertion step of the stable sort; `InsertCounts`, `InsertKeepsSorted` and `InsertClasses` give its contract |
| `Search.SortByRelevance` | app/api/search/route.ts:167-176 | no contract of its own: the `sort` call; `SortPermutes`, `SortIsSorted`, `SortIsStable` and `StableSortIsUnique` give its contract |
| `Search.Project` | app/api/search/route.ts:179-184 | no contract of its own: the `map` body; `ProjectAll` gives its contract |
| `Search.MockCommunities` | app/api/search/route.ts:10-107 | no contract of its own: the twelve built-in records, field by field; `MockListHoldsRiders` states facts about them |
| `DesignRegistry.ColorMap` | components/canvas/designs/DesignRegistry.tsx:38-44 | no contract of its own: the colour table; `ColorMapIsOneToOne` gives its contract |
| `DesignRegistry.DesignKey` | components/canvas/designs/DesignRegistry.tsx:58 | no contract of its own: the template literal; `Capitalize`, `KeySplitsUniquely` and `Registry` give its contract |
| `Store.InitialState` | store/useAppStore.ts:30-38 | no contract of its own: the defaults; `Store.PlanetStore.constructor` gives its contract |

## Left out

- The HTTP layer of the search endpoint is not modelled. This covers URL parsing, `NextResponse.json`, status codes and headers, and the `try`/`catch` 500 branch with its `console.error`. The query arrives as `Option<string>`; no modelled step can throw.
- `toLowerCase` and `toUpperCase` are modelled on ASCII letters only. Non-ASCII letters keep their case in the model, and multi-character case mappings are not modelled.
- Strings are modelled as sequences of code points, not of UTF-16 code units. `charAt(0)` on a string starting with an astral character is therefore not modelled.
- `Search.BicycleQueryFindsRiders`: stated for any list containing the Bicycle Riders record. `Search.MockListHoldsRiders` shows that the built-in list is such a list. A single statement of the query's results on the twelve literal records is too costly for the verifier.
- The order `sort` produces is modelled as that of a stable sort; `Search.StableSortIsUnique` shows any stable sort gives the same list. An engine older than ES2019 with an unstable sort could order records of equal rank differently.
- Member counts are mathematical integers. JavaScript numbers are doubles, but all counts in the data are small integers, so `b.members - a.members` is exact.
- `DesignRegistry.ColorName`: `COLOR_MAP[color]` in JavaScript also finds keys inherited from `Object.prototype` (such as `"constructor"`). For them the colour name is a text that is not a colour name, and the design key reaches the fallback. The model treats every code outside the five as unknown, so it gives Peach instead.
- `Store.PlanetStore.SetRotationLevel`: `rotationLevel` is modelled as an integer. The UI only passes `parseInt` of a 0–10 slider (`components/visuals/PlanetCustomizerUI_D.tsx:157`), but a fractional or `NaN` value reachable from other callers is not modelled.
- `Store.PlanetStore.SetSurfaceType`: the TypeScript parameter type admits only the four textures. The model states that as a precondition, and the UI honours it (`components/visuals/PlanetCustomizerUI_D.tsx:84-89`).
- Zustand's subscription and re-render mechanics are not modelled. Only the state each action leaves behind is modelled.
- The twenty design components and the fallback sphere's JSX are not modelled. Only which branch the `switch` takes is modelled.
- The React rendering in `DesignRegistry` is not modelled, including its dynamic imports and the `marbleTexture` prop.
- The following are not part of this model; they are rendering, floating-point animation or network and file I/O:
  - the Three.js preview scene;
  - the customiser UI and the other pages;
  - the Gemini design generator scripts.
