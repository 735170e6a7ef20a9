# Voice shopping list: reconciler, search and reply cleaning

A Dafny model of the two pieces of pure logic in a voice-driven shopping-list app.

1. **The list controller** (`client/src/App.jsx`). `updateList` receives the intent object that
   the language-model service decoded from an utterance and routes it:
   - the sentinel string `"Not a shopping command."`, or any falsy value, only raises a warning;
   - a `search_item` intent runs `handleSearch`, an order-preserving, case-insensitive substring
     filter over name, category and brand;
   - anything else clears the search view and goes through `handleAddOrRemove`.

   `addItem` either appends a new record or merges into the entry with the same
   case-insensitive name. A merge adds the quantities and reprices at the incoming unit price
   when that price is nonzero. It overwrites category, brand and size only with non-default
   values. `removeItem` either lowers the quantity or deletes the entry.
2. **`cleanJsonResponse`** (`client/server/services/geminiService.js`). It strips the first
   "```json" opener (tag in any case) with the whitespace after it, then every "```", then trims.

The React state is one immutable value, `Controller.State`: the list, the `searched` flag,
the search results and the current alert. `Controller.UpdateList` is the transition.
JavaScript's `x || d` on a field is written out as "absent or zero/empty gives the default"
(`Reconciler.TextOr`, `QuantityOr1`, `PriceOr0`).

Modules: `Wrappers` (Option), `Strings` (ASCII `toLowerCase`, `includes`, the ECMAScript
whitespace set, `trim`, integer-to-text), `Filtering` (`Array.prototype.filter`),
`JsonResponse`, `Items` (records, intents, `find`), `Reconciler`, `Search`, `Alerts`,
`Controller` and `Scenarios` (worked examples).

Facts about the code that the model keeps:
- The code does no intent validation. Names are not trimmed, quantities are not coerced to
  positive integers, and an empty search term is accepted. The empty term matches every entry.
- Removing a name that is not on the list raises no alert. The previous alert stays, because
  the "Removed" alert is set inside `removeItem`, which is not called.
- A partial removal leaves the stored price as it was.
- A remove quantity of JSON `null` is read as 0 by `>` and `-`. So a remove with `null` keeps
  an entry holding a positive quantity, yet alerts "Removed null". An absent quantity
  compares false and deletes the entry (`Items.Requested`, `Reconciler.NumericValue`).

## Model

| member | source | states |
|---|---|---|
| Controller.UpdateList | client/src/App.jsx:71-90 | a falsy value or the sentinel only sets the warning alert (list, view flag and results as before); a search keeps the list and shows the search view; every other input hides the search view and empties the results |
| Controller.SearchShowsMatches | client/src/App.jsx:79-82 | a search intent keeps the list, sets `searched`, stores exactly the search results, which are empty iff no entry matches, and alerts "no matches" or the match count with the term |
| Controller.ChangeClearsSearch | client/src/App.jsx:84-89 | add, remove and unrecognised inputs reset `searched` and the results, install the reconciled list, show the reconciler's alert when it raises one (an add, or a remove of a listed name) and keep the previous alert otherwise; a bare non-sentinel string changes nothing else |
| Controller.HandleSearch | client/src/App.jsx:103-119 | the list is untouched, the view switches to search, the results hold every matching entry of the list and nothing else, they are empty iff no entry matches, and the alert reports "no matches" or the number found |
| Controller.UpdateListKeepsConsistent | client/src/App.jsx:71-90 | every transition keeps names unique case-insensitively, shows only entries of the current list, and has no results outside the search view |
| Controller.UpdateListKeepsQuantitiesPositive | client/src/App.jsx:124-198 | with unique names, every transition whose add quantity is absent or non-negative keeps all quantities positive |
| Controller.InitialConsistent | client/src/App.jsx:19-23 | the empty starting state satisfies the consistency invariant |
| Items.FindIndex | client/src/App.jsx:125 | the position of the first entry whose lower-cased name equals the lower-cased requested name, or -1 when there is none |
| Items.Find | client/src/App.jsx:125 | finds an entry exactly when some entry has the requested name case-insensitively, and what it finds is the first such entry in list order |
| Reconciler.HandleAddOrRemove | client/src/App.jsx:124-138 | an alert is raised iff the intent is an add, or a remove of a name on the list; a remove of an absent name and any other intent return the list unchanged with no alert |
| Reconciler.AddItem | client/src/App.jsx:143-186 | the alert reports the defaulted quantity; with no existing entry one record with the requested name is appended after the unchanged list; otherwise the length and all names stay, every matching entry gains the defaulted quantity, and the other entries are untouched |
| Reconciler.AddNewAppends | client/src/App.jsx:143-151 | an add whose name matches no entry appends one record at the end, leaving the rest alone. The record's quantity is 1 when the request's is absent or zero, its line price is unit price (0 when absent) times quantity, and category, brand and size defaulting to "Uncategorized", "any" and "any". The alert names the quantity and item |
| Reconciler.UnitPriceRecovered | client/src/App.jsx:174-175 | the stored line price divided by its nonzero quantity is the incoming unit price, and the line price is nonzero iff the unit price is |
| Reconciler.AddExistingMerges | client/src/App.jsx:168-176 | an add of a name on the list keeps the length and every other entry, keeps the stored display name, adds the incoming quantity, and reprices to merged quantity times unit price only when the unit price is nonzero |
| Reconciler.MergeKeepsKnownAttributes | client/src/App.jsx:177-179 | on a merge, category is replaced only by a value other than absent, empty or "Uncategorized". Brand and size are replaced only by a value other than absent, empty or "any". Otherwise the stored value stays |
| Reconciler.AddIsAdditive | client/src/App.jsx:173 | applying the same add twice to a listed name adds its quantity twice |
| Reconciler.RemoveItem | client/src/App.jsx:191-219 | the alert reports the requested quantity and name; when the found entry holds more than requested, length and names stay, every matching entry (duplicates included) loses the requested amount with its other fields kept, and entries with other names are untouched; otherwise the list holds exactly the entries with other names, each once, in their original order |
| Reconciler.RemovePartial | client/src/App.jsx:191-197 | with unique names, removing fewer than the entry holds lowers exactly that entry's quantity by the requested amount (0 for `null`), with price, other fields and other entries unchanged |
| Reconciler.RemoveNullKeepsList | client/src/App.jsx:192-217 | a remove whose quantity is `null`, of a name whose first entry holds a positive quantity, returns the list unchanged and alerts "❌ Removed null <name>(s)" |
| Reconciler.RemoveWhole | client/src/App.jsx:192-198 | removing at least what the first match holds, or with an absent quantity, or with `null` when the first match holds 0 or less, leaves no entry with that name; with unique names exactly that one entry is deleted, order kept |
| Reconciler.ReconcileKeepsUniqueKeys | client/src/App.jsx:124-198 | if names are unique case-insensitively before an add or remove, they are unique after it |
| Reconciler.RemoveKeepsQuantitiesPositive | client/src/App.jsx:191-198 | with unique names, a remove keeps every quantity positive |
| Reconciler.AddKeepsQuantitiesPositive | client/src/App.jsx:146 | an add whose quantity is absent or non-negative keeps every quantity positive |
| Reconciler.DuplicateNamesBreakPositivity | client/src/App.jsx:192-197 | with two entries sharing a name, a remove decided on the first one can drive the second below zero |
| Search.Matches | client/src/App.jsx:104-108 | an entry matches iff the lower-cased term occurs in its lower-cased name, or in its category or brand when these are present |
| Search.SearchList | client/src/App.jsx:104-108 | the filter result is no longer than the list and holds exactly the list's matching entries |
| Search.SearchSelectsMatches | client/src/App.jsx:104-108 | the results are the entries at an increasing run of positions, and those positions are exactly the positions of the matching entries |
| Search.SearchResultsMatch | client/src/App.jsx:104-116 | every result is a matching entry of the list, and the results are empty iff no entry matches |
| Search.SearchEmptyTerm | client/src/App.jsx:105 | an empty term returns the whole list |
| Search.AbsentFieldsNeverMatch | client/src/App.jsx:106-107 | an entry with no category and no brand matches only through its name |
| Search.SearchFindsByName | client/src/App.jsx:105 | searching with an entry's name in any letter case finds that entry |
| Search.SearchIgnoresCase | client/src/App.jsx:105-107 | terms that agree after lower-casing give the same results |
| Filtering.FilterSelectsMatches | client/src/App.jsx:104 | `filter` returns exactly the accepted elements, in their original order |
| Filtering.FilterDropsOne | client/src/App.jsx:198 | a filter that rejects exactly one position deletes exactly that element |
| Strings.ContainsIffOccurs | client/src/App.jsx:105-107 | the left-to-right `includes` scan succeeds iff the needle occurs at some position |
| Strings.TrimStartSpec | client/server/services/geminiService.js:11 | the greedy `\s*` consumes a whitespace-only prefix and stops at a non-space |
| Strings.TrimEndSpec | client/server/services/geminiService.js:13 | `trim` at the end removes a whitespace-only suffix and stops at a non-space |
| Strings.TrimSpec | client/server/services/geminiService.js:13 | `trim` keeps a contiguous slice of its input and removes only whitespace around it |
| Strings.Trim | client/server/services/geminiService.js:13 | the result of `trim` has whitespace at neither end, and trimmed text is returned unchanged |
| Strings.IntToStringRoundTrip | client/src/App.jsx:165 | the number shown in an alert reads back as the same integer (for magnitudes below 10^21, where JavaScript prints plain digits) |
| JsonResponse.CleanJsonResponse | client/server/services/geminiService.js:9-14 | the cleaned reply contains no "```" and has no leading or trailing whitespace |
| JsonResponse.DropJsonFence | client/server/services/geminiService.js:11 | the first replacement either returns the text unchanged or removes at least the seven characters of an opener |
| JsonResponse.DropJsonFenceLeftmost | client/server/services/geminiService.js:11 | the first replacement removes the leftmost "```json" (tag in any case) and the whole whitespace run after it, and nothing else |
| JsonResponse.DropJsonFenceNoMatch | client/server/services/geminiService.js:11 | without a "```json" opener the first replacement changes nothing |
| JsonResponse.OnlyFirstJsonFence | client/server/services/geminiService.js:11 | only the first opener is consumed; whatever follows it and its whitespace is handed on unchanged, later openers included |
| JsonResponse.RemoveFences | client/server/services/geminiService.js:12 | the global replacement only shortens the text, by a multiple of three characters, one whole fence at a time |
| JsonResponse.RemoveFencesLeavesNoFence | client/server/services/geminiService.js:12 | after the global replacement no "```" remains, since each run of backticks keeps at most two |
| JsonResponse.RemoveFencesKeepsText | client/server/services/geminiService.js:12 | the global replacement deletes backticks and nothing else |
| JsonResponse.RemoveFencesIdentity | client/server/services/geminiService.js:12 | text without "```" passes the global replacement unchanged |
| JsonResponse.CleanIdempotent | client/server/services/geminiService.js:9-14 | cleaning an already-cleaned reply returns it unchanged |
| JsonResponse.CleanFencedBody | client/server/services/geminiService.js:5-13 | "```json", whitespace, a backtick-free body and "```" clean to the trimmed body |
| JsonResponse.CleanTickFree | client/server/services/geminiService.js:9-13 | a reply with no backtick is only trimmed |
| Scenarios.AddWithoutPriceKeepsTotal | client/src/App.jsx:168-176 | adding 1 "rice" at price 0 to 2 rice totalling 6 gives 3 rice still totalling 6 |
| Scenarios.RemoveMoreThanHeldDeletes | client/src/App.jsx:191-198 | removing 5 from 2 rice empties the list |
| Scenarios.RemoveNullKeepsRice | client/src/App.jsx:191-217 | removing `null` rice from 2 rice keeps the list as it was and alerts "❌ Removed null rice(s)" |
| Scenarios.SearchBreadOnly | client/src/App.jsx:103-117 | searching "brea" among milk and bread returns bread only |
| Scenarios.SentinelOnlyWarns | client/src/App.jsx:73-76 | the sentinel string changes nothing but the alert |

## Left out

- Persistence is left out because it is external I/O. This covers the initial Firestore load
  (client/src/App.jsx:52-66) and the fire-and-forget writes in `saveToFirebase` and
  `removeFromFirebase` (App.jsx:153-163, 200-215). Their failures never affect the list.
- Recommendations are left out because they are a network call plus model output. This covers
  `fetchRecommendations`, the `/recommend` route and the recommendation panel.
- The alert timer is left out. `showAlert` clears the alert after three seconds (App.jsx:95-98);
  the model keeps the alert as a plain state field that stays until replaced.
- Rendering, speech capture and HTTP plumbing are left out because they are UI and device I/O:
  the JSX, `ItemList`, `VoiceInput`, the axios wrapper and the Express app.
- The service calls are left out: `extractIntentFromGemini`, `generateFromGemini`, the POST route,
  `JSON.parse` and the prompt text. The model starts from an already decoded `Controller.Input`.
- React's updater semantics are not modelled. `setShoppingList(prev => ...)` is treated as one
  application of the reconciler to the current list.
- Quantities are unbounded integers. Fractional and NaN quantities are not modelled. JavaScript
  numbers are doubles: `entry.quantity + newItem.quantity` rounds above 2^53, and `String(n)`
  prints exponent form ("1e+21") from 10^21 on. Neither is modelled, so
  `Strings.IntToString` matches the alert text only below 10^21 in magnitude.
- Prices are exact reals. JavaScript floating-point rounding is not modelled.
- Field values are assumed to have the expected types, and `item` and `search_term` are assumed
  present. Without them the source behaves as follows, and none of it is modelled:
  - An add without `item` appends a record whose `item` is undefined. `data.item?.toLowerCase()`
    does not throw. The next `find`, `filter` or search then throws on `entry.item.toLowerCase()`.
  - A remove without `item` matches no entry, since no lower-cased name equals undefined. So it
    returns the list unchanged.
  - A search without `search_term` throws in `term.toLowerCase()` only when the list is non-empty.
- Letter case is ASCII only. `toLowerCase` is modelled on A-Z; Unicode case mapping is not
  modelled. Whitespace, for both `\s` and `trim`, is the full ECMAScript WhiteSpace and
  LineTerminator set with the space separators of current Unicode.
- Search `filters` and `price_range` are ignored, as in the source. Only `search_term` is read.
- Alerts.Message gives the text of each alert and carries no contract of its own. Only its number
  rendering is proved, through Strings.IntToStringRoundTrip.
- Controller.UpdateListKeepsConsistent starts from the empty `useState([])` list. The
  unique-names invariant is not guaranteed for the list loaded from the store
  (client/src/App.jsx:52-58). The store is keyed by the incoming `newItem.item` exactly as
  spoken (App.jsx:156). So adding "milk" to a loaded "Milk" merges in memory, but a reload yields
  both "Milk" and "milk". That is the state in which Reconciler.DuplicateNamesBreakPositivity
  drives a quantity negative.
- Controller.UpdateListKeepsQuantitiesPositive assumes unique names, for the same reason.
- Reconciler.RemoveKeepsQuantitiesPositive assumes unique names. With duplicate names the
  decrement is decided on the first match but applied to all matches, so a later duplicate can
  go negative (Reconciler.DuplicateNamesBreakPositivity exhibits this).
- Reconciler.RemovePartial assumes unique names for its exact "only this entry changes" form.
  Without them, every matching entry is lowered, as Reconciler.RemoveItem states.
