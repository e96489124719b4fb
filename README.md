# WCA Live scoretaking stats, modelled in Dafny

This project models the deterministic core of a small React dashboard over the
WCA Live results API:

- the **round summary**, which reduces a round's results to one entry per
  scoretaker (the person who entered the scorecard), sorted by count and then by
  name, with the total, the largest count and each entry's bar width;
- the **competition search filter**, a case-insensitive substring filter over
  the competition list;
- the **competition detail** view's flattening of events into one list of
  rounds, and its rule for writing a fetched name into the name cache;
- the **navigation controller** in `App.tsx`: the three-case view, the view the
  app starts in (parsed from the address) and the transitions between views with
  the address they leave behind;
- the **competition-name cache** in `storage.ts`, which reads fail-soft and
  writes without ever failing.

Files:

- `wrappers.dfy`: `Option`.
- `text.dfy`: stand-ins for the string library. `Trim` uses the exact
  ECMAScript whitespace set. `ToLower` covers ASCII letters only. `Contains` is
  substring search. `LexLeq` is the code-point order standing in for
  `localeCompare`.
- `uri.dfy`: a percent codec standing in for
  `encodeURIComponent`/`decodeURIComponent`.
- `storage.dfy`: the name cache, as a class over an abstract backing store.
- `round_summary.dfy`: the tally. A counting loop fills a map. Its entries are
  copied to an array, insertion-sorted in place and folded for the maximum.
  `IsTallyOf` states what a correct summary is, and the lemmas show that it has
  exactly one solution.
- `competition_search.dfy`, `competition_detail.dfy`, `app.dfy`: the remaining
  components.

Where the source is silent about the library it calls, the model states its
assumption:

- `localeCompare` is a total order. The model uses code-point order and proves
  it reflexive, antisymmetric, transitive and total.
- `toLowerCase` lowercases A–Z only.
- `decodeURIComponent` throws on a malformed escape. The model answers `None`
  there, and also for an escape of a byte 0x80 or above, since multi-byte UTF-8
  is not modelled.

## Model

| member | source | states |
|---|---|---|
| RoundSummary.ResultsOf | src/components/RoundSummary.tsx:30 | a missing `round` gives the empty list, and a present results list is used as it is |
| RoundSummary.ScoretakerAttribution | src/components/RoundSummary.tsx:39 | a result goes to its trimmed submitter name when that has a non-whitespace character, and to "Unknown" when the submitter or name is missing or blank; the name is never empty |
| RoundSummary.CountOfZero | src/components/RoundSummary.tsx:38-41 | a name's count is zero exactly when no result is attributed to it |
| RoundSummary.CountOfStep | src/components/RoundSummary.tsx:38-40 | one more result adds one to its own scoretaker's count and to no other |
| RoundSummary.CountsStep | src/components/RoundSummary.tsx:40 | bumping the next result's counter keeps every counter equal to that name's number of results so far |
| RoundSummary.CountNames | src/components/RoundSummary.tsx:37-41 | after the loop, each counter equals its name's number of results, absent names count zero, and every result's scoretaker has a counter of at least 1; `order` lists the counted names once each (their order is left open, since the sort fixes the final order) |
| RoundSummary.CountByScoretaker | src/components/RoundSummary.tsx:37-42 | the entries have distinct names, each count is at least 1 and equals the name's number of results, and every result's scoretaker has an entry |
| RoundSummary.Scoretaker | src/components/RoundSummary.tsx:39 | the key a result is counted under; specified by `RoundSummary.ScoretakerAttribution` |
| RoundSummary.CountOf | src/components/RoundSummary.tsx:38-41 | the number of results attributed to a name, at most the number of results; the reference count for `IsTallyOf`, with `RoundSummary.CountOfZero` |
| RoundSummary.Bump | src/components/RoundSummary.tsx:40 | the counter update; `RoundSummary.CountsStep` shows it keeps the counts exact |
| RoundSummary.Before | src/components/RoundSummary.tsx:43 | the comparator as an order; total, transitive and antisymmetric by the three `RoundSummary.Before*` lemmas |
| RoundSummary.BeforeTotal | src/components/RoundSummary.tsx:43 | any two entries are comparable under the sort order |
| RoundSummary.BeforeTransitive | src/components/RoundSummary.tsx:43 | the sort order (count descending, then name) is transitive |
| RoundSummary.BeforeAntisymmetric | src/components/RoundSummary.tsx:43 | two entries each sorting before the other are equal |
| RoundSummary.InsertLast | src/components/RoundSummary.tsx:43 | one insertion step extends the sorted prefix by one, permutes the array, and leaves everything after position i untouched |
| RoundSummary.SortItems | src/components/RoundSummary.tsx:43 | `items.sort(...)` leaves the array sorted (count descending, ties by name ascending) and a permutation of what it was |
| RoundSummary.PermutationKeepsDistinctNames | src/components/RoundSummary.tsx:42-43 | a permutation of name-distinct entries is name-distinct too, so sorting keeps names unique |
| RoundSummary.TallySum | src/components/RoundSummary.tsx:37-44 | for entries with distinct names covering every result, the counts add up to the number of results |
| RoundSummary.MaxCount | src/components/RoundSummary.tsx:45 | the fold is at least every count and equals one of them, and is 0 for no entries |
| RoundSummary.Group | src/components/RoundSummary.tsx:36-47 | the result satisfies `IsTallyOf`: total is the number of results, names are unique, each count is at least 1 and is that name's number of results, every result is counted, counts sum to the total, the order is sorted, and max is the largest count (0 for none) |
| RoundSummary.Summarize | src/components/RoundSummary.tsx:30-47 | the tally of the response's results; a missing round gives no entries, total 0 and max 0 |
| RoundSummary.ResultInOneEntry | src/components/RoundSummary.tsx:37-42 | each result is counted in exactly one entry, named after its scoretaker |
| RoundSummary.EmptyTally | src/components/RoundSummary.tsx:37-46 | no results give no entries, total 0 and max 0 |
| RoundSummary.FirstHasMax | src/components/RoundSummary.tsx:43-45 | with results present, the first entry holds the max, and every count lies between 1 and max |
| RoundSummary.TailsShareEntries | src/components/RoundSummary.tsx:42-43 | two name-distinct lists with the same entries and the same first entry have tails with the same entries |
| RoundSummary.SortedUnique | src/components/RoundSummary.tsx:43 | two sorted, name-distinct lists with the same entries are equal |
| RoundSummary.EntriesShared | src/components/RoundSummary.tsx:37-42 | any two tallies of the same results contain the same entries |
| RoundSummary.TallyDeterministic | src/components/RoundSummary.tsx:36-47 | the summary of a result list is unique: any two tallies of it are equal |
| RoundSummary.WidthPct | src/components/RoundSummary.tsx:88-89 | 0 when max is 0, otherwise `count*100/max` rounded to the nearest integer with halves rounded up |
| RoundSummary.WidthBounds | src/components/RoundSummary.tsx:88-89 | a count no larger than max gets a width of at most 100, and a positive count equal to max gets exactly 100 |
| RoundSummary.TallyWidths | src/components/RoundSummary.tsx:88-89 | every entry of a tally gets a width in [0, 100], and the first entry gets 100 |
| RoundSummary.ExampleScoretakers | src/components/RoundSummary.tsx:39 | on a sample round (Alice, Bob, Alice, no submitter), the scoretakers are Alice, Bob, Alice and Unknown |
| RoundSummary.ExampleCounts | src/components/RoundSummary.tsx:37-41 | on the sample round, Alice counts 2 and Bob and Unknown count 1 each |
| RoundSummary.ExampleShape | src/components/RoundSummary.tsx:43 | the sample's expected entries are sorted and name-distinct |
| RoundSummary.ExampleIsTally | src/components/RoundSummary.tsx:36-47 | the expected summary of the sample satisfies `IsTallyOf` |
| RoundSummary.ExampleTally | src/components/RoundSummary.tsx:36-47 | the sample's summary is exactly Alice 2, Bob 1, Unknown 1, with total 4 and max 2 |
| Text.TrimStartSpec | src/components/RoundSummary.tsx:39 | trimming the start keeps a suffix, drops only whitespace, and stops at a non-whitespace character |
| Text.TrimEndSpec | src/components/RoundSummary.tsx:39 | trimming the end keeps a prefix, drops only whitespace, and stops at a non-whitespace character |
| Text.TrimSpec | src/components/CompetitionSearch.tsx:41 | `trim()` is empty exactly for a blank string, and otherwise starts and ends with a non-whitespace character |
| Text.LowerChar | src/components/CompetitionSearch.tsx:41 | upper-case ASCII letters map to their lower-case letter; every other character is unchanged |
| Text.ToLower | src/components/CompetitionSearch.tsx:41-43 | lowercasing keeps the length and lowercases each character in place |
| Text.ToLowerIdempotent | src/components/CompetitionSearch.tsx:41 | lower-casing twice is lower-casing once |
| Text.TrimLower | src/components/CompetitionSearch.tsx:41 | trimming and lower-casing commute |
| Text.ContainsIffOccurs | src/components/CompetitionSearch.tsx:43 | `includes(q)` holds exactly when q occurs at some position |
| Text.Trim | src/components/RoundSummary.tsx:39 | `trim()` as trimming the start and then the end; specified by `Text.TrimSpec` |
| Text.Contains | src/components/CompetitionSearch.tsx:43 | `includes`; specified by `Text.ContainsIffOccurs` |
| Text.LexLeq | src/components/RoundSummary.tsx:43 | the stand-in for `localeCompare`'s order; a total order by the four `Text.LexLeq*` lemmas |
| Text.LexLeqReflexive | src/components/RoundSummary.tsx:43 | the name order is reflexive |
| Text.LexLeqAntisymmetric | src/components/RoundSummary.tsx:43 | the name order is antisymmetric |
| Text.LexLeqTransitive | src/components/RoundSummary.tsx:43 | the name order is transitive |
| Text.LexLeqTotal | src/components/RoundSummary.tsx:43 | the name order is total |
| CompetitionSearch.CompetitionsOf | src/components/CompetitionSearch.tsx:34 | a missing `competitions` field gives the empty list |
| CompetitionSearch.Query | src/components/CompetitionSearch.tsx:41 | the trimmed, lower-cased search; `Text.TrimSpec` and `CompetitionSearch.FilterIgnoresSearchCase` say what it keeps |
| CompetitionSearch.Matches | src/components/CompetitionSearch.tsx:43 | the filter's test; substring search by `Text.ContainsIffOccurs` |
| CompetitionSearch.Filter | src/components/CompetitionSearch.tsx:40-44 | the `filtered` list; specified by `BlankQueryKeepsAll`, `FilterSoundAndComplete`, `FilterIsSubsequence` and `FilterIdempotent` |
| CompetitionSearch.KeepMatching | src/components/CompetitionSearch.tsx:43 | keeps exactly the competitions whose lowercased name contains the query, every copy of each: each competition occurs as often as in the list if it matches, and not at all otherwise |
| CompetitionSearch.KeepMatchingIsSubsequence | src/components/CompetitionSearch.tsx:43 | the kept competitions appear in their original order |
| CompetitionSearch.BlankQueryKeepsAll | src/components/CompetitionSearch.tsx:41-42 | a query that is empty or only whitespace returns the list unchanged |
| CompetitionSearch.FilterSoundAndComplete | src/components/CompetitionSearch.tsx:41-43 | for any other query, a competition is kept exactly when its lowercased name contains the trimmed, lowercased query |
| CompetitionSearch.FilterIsSubsequence | src/components/CompetitionSearch.tsx:40-44 | the filtered list is an order-preserving subsequence of the list |
| CompetitionSearch.KeepMatchingIdempotent | src/components/CompetitionSearch.tsx:43 | keeping matches twice keeps the same list |
| CompetitionSearch.FilterIdempotent | src/components/CompetitionSearch.tsx:40-44 | filtering the filtered list again with the same search gives the same list |
| CompetitionSearch.FilterIgnoresSearchCase | src/components/CompetitionSearch.tsx:41 | typing the search in any case filters alike: the lower-cased search gives the same list |
| CompetitionDetail.NameOf | src/components/CompetitionDetail.tsx:44 | the name defaults to `''` when the competition or its name is missing |
| CompetitionDetail.EventsOf | src/components/CompetitionDetail.tsx:45 | the events default to the empty list when the competition or its events are missing |
| CompetitionDetail.NameToCache | src/components/CompetitionDetail.tsx:46-48 | a name is cached exactly when the fetched name is present and non-empty, and it is that name |
| CompetitionDetail.Tag | src/components/CompetitionDetail.tsx:58-65 | one flattened round: the round's five fields and its event's name |
| CompetitionDetail.TagRounds | src/components/CompetitionDetail.tsx:58-65 | the inner `map`; specified by `CompetitionDetail.TagRoundsAt` |
| CompetitionDetail.Flatten | src/components/CompetitionDetail.tsx:55-68 | the `flatMap`; specified by `FlattenLength`, `FlattenAppend` and `FlattenAt` |
| CompetitionDetail.TagRoundsAt | src/components/CompetitionDetail.tsx:58-65 | tagging keeps the number and order of rounds, copies id, name, active, open and number, and adds the event's name |
| CompetitionDetail.FlattenLength | src/components/CompetitionDetail.tsx:55-66 | the flattened list has as many entries as the events have rounds in total |
| CompetitionDetail.RoundCountAppend | src/components/CompetitionDetail.tsx:57 | the round count of two event lists, one after the other, is the sum of their counts |
| CompetitionDetail.FlattenAppend | src/components/CompetitionDetail.tsx:57 | flattening two event lists one after the other concatenates their flattenings |
| CompetitionDetail.FlattenAt | src/components/CompetitionDetail.tsx:57-65 | round k of event e sits right after all rounds of the earlier events, tagged with event e's name, so event order and round order are kept |
| CompetitionDetail.FlattenNone | src/components/CompetitionDetail.tsx:44-48 | a missing competition gives no rounds, the empty name, and no cache write |
| CompetitionDetail.OnCompetitionLoaded | src/components/CompetitionDetail.tsx:43-49 | the handler yields the defaulted name and the flattened rounds, and stores the name under the requested id only when it is non-empty |
| Storage.Names | src/utils/storage.ts:3-13 | what `readMap` yields: the stored object, or `{}` in the fail-soft cases; `Storage.LookupFailsSoft` |
| Storage.AfterSet | src/utils/storage.ts:28-32 | the store after a set; specified by the `Storage` lemmas below |
| Storage.AfterWrites | src/utils/storage.ts:28-32 | the store after a series of sets, for `Storage.NeverSetIsAbsent` |
| Storage.Lookup | src/utils/storage.ts:23-26 | an id reads as present exactly when the store holds an object with that key, and then as its value |
| Storage.LookupFailsSoft | src/utils/storage.ts:5-12 | a store that is missing, unparsable or not an object reads every id as absent |
| Storage.NeverSetIsAbsent | src/utils/storage.ts:23-32 | an id that was absent and has not been written since reads as absent, whatever other writes happened |
| Storage.LookupAfterSet | src/utils/storage.ts:28-32 | after a successful set, the id reads back as the name |
| Storage.SetKeepsOtherIds | src/utils/storage.ts:29-31 | a set leaves what every other id reads as unchanged |
| Storage.FailedSetKeepsStore | src/utils/storage.ts:15-21 | a failed write leaves the store as it was |
| Storage.SetTwiceLastWins | src/utils/storage.ts:28-32 | of two sets of one id, the last wins |
| Storage.SetIdempotent | src/utils/storage.ts:28-32 | setting the same pair again changes nothing |
| Storage.NameStore.ReadMap | src/utils/storage.ts:3-13 | the stored object, or the empty map when there is none, it does not parse, or it is not an object |
| Storage.NameStore.WriteMap | src/utils/storage.ts:15-21 | a successful write replaces the stored object; a failed one changes nothing and raises nothing |
| Storage.NameStore.Get | src/utils/storage.ts:23-26 | the stored name for the id, or absent |
| Storage.NameStore.Set | src/utils/storage.ts:28-32 | the store becomes the old map with the id set to the name, or stays as it was if the write fails |
| App.StripTrailingSlashes | src/App.tsx:21 | `replace(/\/+$/, '')`; specified by `App.StripTrailingSlashesSpec` |
| App.Slug | src/App.tsx:21-22 | the path without trailing slashes and one leading slash; `App.SlugOfCompetitionPath` |
| App.InitialView | src/App.tsx:20-29 | `initialView`; specified by the `App` lemmas below |
| App.CompetitionPath | src/App.tsx:40 | the pushed path; `App.ReloadAtCompetitionPath` shows it leads back to the view |
| App.StripTrailingSlashesSpec | src/App.tsx:21 | stripping keeps a prefix, removes only slashes, and leaves no slash at the end |
| App.StripSlashesOnly | src/App.tsx:21 | a path of slashes only strips to the empty string |
| App.SlashesOnlyIsSearch | src/App.tsx:21-28 | the root path, the empty path and any path of only slashes start in the search view |
| App.TrailingSlashIgnored | src/App.tsx:21 | a trailing slash does not change the starting view |
| App.NonEmptySlugIsCompetition | src/App.tsx:23-26 | a non-empty slug that decodes starts in that competition's view with the cached name, or `''` when none is cached |
| App.NeverStartsInRound | src/App.tsx:20-29 | the app never starts in the round view |
| App.SlugOfCompetitionPath | src/App.tsx:21-22 | the slug of the path `goToCompetition` pushes is the encoded id |
| App.ReloadAtCompetitionPath | src/App.tsx:20-42 | reloading at the path `goToCompetition(id, ...)` pushed starts in that competition's view again, for a non-empty id |
| App.InitialViewMatchesAddress | src/App.tsx:20-29 | the starting view agrees with the address it was read from |
| App.Navigator.constructor | src/App.tsx:20-31 | the view starts as the initial view of the current path, and matches the address |
| App.Navigator.GoToSearch | src/App.tsx:33-36 | the view becomes search and the path becomes `/` |
| App.Navigator.GoToCompetition | src/App.tsx:38-42 | the view becomes that competition with exactly that id and name, and the path becomes `/` plus the encoded id |
| App.Navigator.GoToRound | src/App.tsx:44-53 | the view becomes the round view carrying all five fields, and the path is unchanged |
| App.Navigator.SelectCompetition | src/App.tsx:91-93 | picking a competition from search opens its view at its path |
| App.Navigator.SelectRound | src/App.tsx:98-106 | picking a round carries over the competition view's id and name, and keeps the path |
| App.Navigator.BackFromCompetition | src/App.tsx:97 | going back from a competition returns to search at `/` |
| App.Navigator.BackFromRound | src/App.tsx:114-116 | going back from a round returns to the competition view with the same id and name |
| App.Navigator.HeaderCompetition | src/App.tsx:67-74 | the header link returns to the current competition's view, outside the search view |
| App.RoundAndBack | src/App.tsx:98-116 | opening a round and going back restores the same competition view |
| Uri.Encode | src/App.tsx:40 | the encoded id holds no `/`, and is empty exactly when the id is |
| Uri.Decode | src/App.tsx:24 | a successful decode is empty exactly when its input is |
| Uri.DecodeEncode | src/App.tsx:24-40 | decoding an encoded id gives the id back |

## Left out

- The API client, the GraphQL query strings, and the fetch lifecycle: loading
  and error state, the `AbortController` that cancels a superseded fetch, and the
  order in which responses arrive. The responses are parameters of the model.
- The default "from" date of the competition search. It reads the clock.
- JSX rendering, CSS classes and the breadcrumb markup. The header's competition
  link is kept as `App.Navigator.HeaderCompetition`.
- The History API. The address is a `path` field that the transitions assign.
  The browser's back button, `popstate`, is not part of the source and is not
  modelled. The browser also normalises the pushed path, which the model does
  not: `encodeURIComponent` leaves `.` unescaped, so the ids `.` and `..` push
  `/.` and `/..`, which the browser resolves to `/`. A reload there starts in
  the search view, not in the competition view that
  `App.ReloadAtCompetitionPath` describes for the path as pushed.
- `localStorage` and `JSON.parse`/`stringify` are abstracted into
  `Storage.Backing`, which distinguishes no entry, unparsable text, a non-object
  and an object of names. A write failure is a boolean parameter.
- Storage.Lookup, Storage.NameStore.Get: a JavaScript object also answers for
  names it inherits from `Object.prototype` (`toString`, `constructor`,
  `hasOwnProperty` and the rest), so in the source reading such an id finds a
  function even in an empty store, and `initialView` keeps that function as the
  name. The model treats the object as a plain map from ids to names, so
  `Storage.LookupFailsSoft`, `Storage.NeverSetIsAbsent` and
  `App.NonEmptySlugIsCompetition` hold for every id in the model but not for
  these ids in the source.
- Storage.AfterSet, Storage.NameStore.Set: for the id `__proto__`, the
  assignment `map[id] = name` reaches the setter inherited from
  `Object.prototype`. That setter ignores a value that is neither an object nor
  null, and a name is a string, so nothing is stored and the old map is written
  back. The model stores the name under that id like any other, so
  `Storage.LookupAfterSet` does not hold for `__proto__` in the source.
- Storage.Lookup: a stored JSON array, or an object with non-string values,
  passes the source's `typeof data === 'object'` test. The model has no such
  backing and treats every parsed object as a map of strings.
- App.Navigator.constructor: requires the address to decode. On a malformed
  escape, `decodeURIComponent` throws while the app renders, and the model has
  no state for a failed render. `App.InitialView` itself answers `None` there.
- Uri.Encode, Uri.Decode: a percent codec over characters below U+0080. Other
  characters pass through `Encode` unchanged instead of being UTF-8 encoded, and
  `Decode` rejects escapes of 0x80 and above.
- Text.ToLower: ASCII letters only, not Unicode case mapping.
- RoundSummary.Before: compares names by code point, not by the locale's
  collation. Any total order serves the proofs.
- RoundSummary.SortItems: the source's `Array.prototype.sort` algorithm is not
  specified by the language. The model sorts by insertion, which gives the same
  result here because the order is total on entries with distinct names
  (`RoundSummary.TallyDeterministic`).
- RoundSummary.WidthPct: computed in exact rational arithmetic. The source's
  floating-point division and multiplication could differ from it only by
  rounding error at an exact half.
