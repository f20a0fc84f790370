# Crypto dashboard: coins slice and table view model

This project models the logic of a small cryptocurrency dashboard. The model
has two parts.

- **The coins slice** (`toolkit/cryptoSlice.js`). This is a state container
  `{list, status, error}` with three reducers:
  - `setCoins` replaces the list;
  - `resetCoins` restores the initial state;
  - `updateCoin` searches for the first coin whose `id` matches the payload's
    and overwrites that one slot in place.
- **The dashboard page** (`pages/index.js`):
  - the view model that turns the slice's list into table rows: a sorted copy
    (`sortedCoins`) filtered by the search term (`filteredCoins`);
  - the handlers that change the page's component state (sort column and
    direction, edit draft, dialog flag) or dispatch to the slice.

The model is split into these modules:

- `JsValue` holds the JavaScript values a coin can carry:
  - `null`, booleans, numbers, strings, arrays and objects;
  - a coin is an object, modelled as `map<string, Value>`;
  - truthiness and `===`.
- `JsString` holds `toLowerCase`, the string order used by `<` and `>`, and
  `includes`.
- `JsArray` holds `Array.prototype.sort` with a comparator and
  `Array.prototype.filter` with a predicate, both generic over the element type.
- `CryptoSlice` holds the slice. `CoinsState` is a class whose methods update
  its fields in place; `FindIndex` is the `findIndex` loop.
- `CoinTable` holds the comparator, `sortedCoins` and `filteredCoins`, with the
  `TypeError` paths of the original expressions as `Err(TypeError)`.
- `HomeView` holds the page component's state (class `Home`) and its handlers.
- `Scenarios` holds proved facts about two concrete coins, Bitcoin and Ether.

The reducer `updateCoin` writes `{...state, ...action.payload}` into the
matched slot. That value is the slice state's own properties (`list`,
`status`, `error`) overlaid by the payload. It is not the old coin merged with
the payload. The model writes exactly this, except for the value of the
slot's `list` property (see "Left out"). `UpdateDropsOldFields` proves the
consequence: the rewritten slot keeps the payload's `id`, but it loses every
other property of the old coin (such as `symbol`) that the payload does not
set.

No reducer ever stores a failure. `CoinsState.Valid` says the status is
`idle` or `succeeded` and the error is `null`; the constructor establishes it
and every reducer preserves it. `CoinsState.NeverFailed` states the
consequence: the page's `status === 'failed'` branch (pages/index.js:125) can
never be taken. A record-failure-on-fetch-error
behaviour would belong to fetch code, which does not exist in the source.

## Model

| member | source | states |
|---|---|---|
| CryptoSlice.CoinsState.constructor | toolkit/cryptoSlice.js:5-9 | The initial state has an empty list, status `idle` and error `null`, and satisfies the slice invariant. |
| CryptoSlice.CoinsState.SetCoins | toolkit/cryptoSlice.js:11-14 | The list becomes exactly the payload and the status `succeeded`. The error is unchanged and the invariant is preserved. |
| CryptoSlice.CoinsState.ResetCoins | toolkit/cryptoSlice.js:15-19 | From any prior state the result is list `[]`, status `idle`, error `null`. The result does not depend on the prior state, so resetting twice equals resetting once. |
| CryptoSlice.CoinsState.UpdateCoin | toolkit/cryptoSlice.js:20-25 | The new list is the first matching slot overwritten by the spread value, or the old list when nothing matches. Status and error are unchanged and the invariant is preserved. |
| CryptoSlice.CoinsState.NeverFailed | toolkit/cryptoSlice.js:5-25 | A slice satisfying the invariant that every reducer keeps has a status other than `failed` and a `null` error, so the page's failure message (pages/index.js:125) is never shown. |
| CryptoSlice.IdMatches | toolkit/cryptoSlice.js:21 | The `findIndex` callback `coin => coin.id === action.payload.id`, a missing `id` reading as `undefined`. |
| CryptoSlice.FirstMatch | toolkit/cryptoSlice.js:21 | `findIndex` returns -1 exactly when no slot's `id` is `===` to the payload's `id`. Otherwise it returns an in-range index whose slot matches, with no earlier slot matching. |
| CryptoSlice.FindIndex | toolkit/cryptoSlice.js:21 | The linear search of `findIndex` returns the first matching index, or -1. |
| CryptoSlice.StateObject | toolkit/cryptoSlice.js:23 | The slice state as `{...state}` sees it: exactly the keys `list`, `status` and `error`, holding the list's coins in order, the status and the error. |
| CryptoSlice.SpreadSlot | toolkit/cryptoSlice.js:23 | The slot's keys are `list`, `status` and `error` plus the payload's keys. Every payload key carries the payload's value. `status` and `error` come from the state unless the payload sets them. |
| CryptoSlice.UpdatedList | toolkit/cryptoSlice.js:20-24 | The list `updateCoin` leaves behind. It has the old length, and each slot is either the old coin or the spread value; `UpdateFound` and `UpdateNotFound` say which. |
| CryptoSlice.UpdateNotFound | toolkit/cryptoSlice.js:20-22 | When no slot's `id` matches the payload's `id`, the list is unchanged. |
| CryptoSlice.UpdateFound | toolkit/cryptoSlice.js:21-23 | When slot `k` is the first match, only slot `k` is replaced, by the spread value. The length and every other slot are kept. |
| CryptoSlice.UpdateDropsOldFields | toolkit/cryptoSlice.js:23 | The rewritten slot has the payload's `id`. A property of the old coin that the payload does not set (and that is not a state key) is absent from it. |
| JsValue.Truthy | pages/index.js:117 | JavaScript truthiness: `null`, `false`, `0` and `''` are falsy; every other value is truthy. |
| JsValue.StrictEquals | toolkit/cryptoSlice.js:21 | `===` on two property values, a missing one being `undefined`: primitives compare by value, and separately built objects or arrays are never equal. |
| JsString.Lower | pages/index.js:109-110 | `toLowerCase` on each character, as stated by `LowerSpec`. |
| JsString.LowerSpec | pages/index.js:109-110 | `toLowerCase` keeps the length, maps each capital `A`-`Z` to its own small letter, leaves no capital letter behind and changes no other character. Applying it twice is the same as applying it once. |
| JsString.Less | pages/index.js:111-112 | `a < b` on strings: character-by-character lexicographic order, where a proper prefix is smaller. Its order properties are the four lemmas below. |
| JsString.LessIrreflexive | pages/index.js:111-112 | No string is `<` itself. |
| JsString.LessTransitive | pages/index.js:111-112 | `<` on strings is transitive. |
| JsString.LessTrichotomy | pages/index.js:111-112 | Two strings are equal or one is `<` the other. |
| JsString.LessAsymmetric | pages/index.js:111-112 | Two strings are never each `<` the other. |
| JsString.EmptyIsLeast | pages/index.js:109-112 | `''` is `<` exactly the non-empty strings, and no string is `<` `''`. |
| JsString.Includes | pages/index.js:117 | `s.includes(t)`: `t` is a prefix of `s` or of some suffix of `s`. `IncludesIff` ties it to an occurrence at an index. |
| JsString.IncludesIff | pages/index.js:117 | `s.includes(t)` holds exactly when `t` occurs in `s` at some index. |
| JsString.IncludesEmpty | pages/index.js:117 | Every string includes `''`. |
| JsArray.SortWith | pages/index.js:108 | The sorted copy has the input's length and the same elements with the same multiplicities: it is a permutation. |
| JsArray.SortWithSorted | pages/index.js:108 | With a consistent comparator, each earlier element of the result compares no greater than each later one. |
| JsArray.SortWithStable | pages/index.js:108 | With a consistent comparator the sort is stable: for any `y`, the elements comparing equal to `y` appear in the result in their input order. |
| JsArray.SubsequenceSorted | pages/index.js:108-116 | Any subsequence of an ordered sequence is ordered. This is why filtering the sorted copy keeps the rows sorted. |
| JsArray.SortedIsFixedPoint | pages/index.js:108 | Sorting a sequence that is already ordered returns it unchanged. |
| JsArray.FilterWithSound | pages/index.js:116 | The filtered result is never longer than its input, and each kept element satisfies the predicate. |
| JsArray.FilterWithCount | pages/index.js:116 | Each element satisfying the predicate is kept as many times as it occurs; every other element is dropped. |
| JsArray.FilterWithOrdered | pages/index.js:116 | The kept elements are a subsequence of the input, so their relative order is kept. |
| CoinTable.Keyable | pages/index.js:109-110 | `c[field]?.toLowerCase()` can be evaluated: the property is missing, `null` or a string. |
| CoinTable.SortKey | pages/index.js:109-110 | `c[field]?.toLowerCase() \|\| ''`: the lower-cased string, or `''` when the property is missing or `null`. |
| CoinTable.Compare | pages/index.js:108-114 | The comparator returns -1, 0 or 1. It returns 0 exactly when the lower-cased keys are equal. It is negative exactly when the keys are in `<` order for `asc`, or in reverse order for `desc`. |
| CoinTable.CompareDescNegatesAsc | pages/index.js:111-112 | The `desc` result is the negation of the `asc` result. |
| CoinTable.CompareFlip | pages/index.js:108-114 | Swapping the two coins negates the comparator. |
| CoinTable.CompareLeTransitive | pages/index.js:108-114 | "Compares no greater than" is transitive. |
| CoinTable.MissingFieldSortsFirst | pages/index.js:109-110 | A coin whose sort field is missing or `null` compares as `''`. Under `asc` it compares no greater than any coin, and strictly less than any coin with a non-empty key. |
| CoinTable.ComparatorConsistent | pages/index.js:108-114 | The comparator is consistent in the sense that `Array.prototype.sort` requires. |
| CoinTable.ComparatorEquivIsSameKey | pages/index.js:109-113 | Two coins compare equal exactly when their lower-cased keys are equal. |
| CoinTable.SortedCoins | pages/index.js:108-114 | `sortedCoins`: `Err(TypeError)` when the comparator would meet an unkeyable coin, otherwise the sorted copy of `coins \|\| []`. Its properties are `SortedCoinsThrows`, `SortedCoinsCorrect` and `SortedCoinsIdempotent`. |
| CoinTable.SortedCoinsThrows | pages/index.js:108-110 | `sortedCoins` throws `TypeError` exactly when there are two or more coins and some coin's sort field is neither missing, `null` nor a string. |
| CoinTable.ComparatorSorts | pages/index.js:108-114 | Sorting with the table comparator orders the coins by it. |
| CoinTable.ComparatorStable | pages/index.js:108-114 | Sorting with the table comparator keeps coins with equal keys in their input order. |
| CoinTable.SortedCoinsCorrect | pages/index.js:108-114 | When `sortedCoins` does not throw, it is a permutation of `coins \|\| []`, ordered by the comparator, and stable. |
| CoinTable.SortedCoinsIdempotent | pages/index.js:108-114 | Sorting the sorted list again by the same column and direction returns the same list. |
| CoinTable.NameThrows | pages/index.js:117 | `coin.name.toLowerCase()` throws: the name is truthy but not a string. |
| CoinTable.Matches | pages/index.js:117 | The filter's test: the name is a non-empty string whose lower case includes the lower-cased search term. |
| CoinTable.FilteredCoins | pages/index.js:116-118 | `filteredCoins`: `Err(TypeError)` when some coin's name would throw, otherwise the matching coins in order. Its properties are `FilteredCoinsThrows` and `FilteredCoinsCorrect`. |
| CoinTable.FilteredCoinsThrows | pages/index.js:116-118 | `filteredCoins` throws `TypeError` exactly when some coin's `name` is truthy but not a string. |
| CoinTable.FilteredCoinsCorrect | pages/index.js:116-118 | Otherwise, every kept coin has a non-empty string name that contains the lower-cased search term. Every such coin is kept as often as it occurs, the others are dropped, and the kept coins stay in sorted order, never more than the sorted ones. |
| CoinTable.EmptySearchKeepsNamed | pages/index.js:117 | With an empty search term, a coin is kept exactly when its name is a non-empty string, so coins with a missing or empty name are still dropped. |
| CoinTable.DeriveView | pages/index.js:108-118 | The rows the table renders: `sortedCoins`, then `filteredCoins` of the result. Its properties are `DeriveViewThrows` and `DeriveViewRows`. |
| CoinTable.DeriveViewThrows | pages/index.js:108-118 | Computing the rows throws exactly when the sort meets an unkeyable coin or some coin has a truthy non-string name. |
| CoinTable.DeriveViewRows | pages/index.js:108-118 | When the rows can be computed, there are no more rows than coins. Each row is an input coin that matches the search, and each matching coin appears as often as in the input. The rows are in comparator order. |
| HomeView.NextOrder | pages/index.js:103-104 | The direction `handleRequestSort` sets: `desc` when the clicked column is the sort column and sorted `asc`, otherwise `asc`. |
| HomeView.RequestSortTwiceRestoresAsc | pages/index.js:102-106 | Clicking the same column twice, starting from `asc` on it, gives `desc` and then `asc`. |
| HomeView.RequestSortNewColumnIsAsc | pages/index.js:102-106 | Clicking a column other than the current sort column always sorts it `asc`. |
| HomeView.EditedDraft | pages/index.js:92 | The draft maps the input's name to its value. Every other property is present and unchanged exactly when it was in the previous draft; a `null` draft contributes nothing. |
| HomeView.Home.constructor | pages/index.js:44-49 | The initial component state: empty search, no selection, dialog closed, no draft, sorted `asc` by `name`. |
| HomeView.Home.Rows | pages/index.js:108-118 | When the rendered rows can be computed, there are no more of them than coins in the slice. Each one is a slice coin matching the search, each matching coin is rendered as often as it occurs in the list, and the rows are in the order of the selected column and direction. |
| HomeView.Home.Refresh | pages/index.js:70-73 | Refreshing resets the slice to its initial state, which satisfies the slice invariant. |
| HomeView.Home.SearchChange | pages/index.js:75-77 | The search term becomes the input's value. |
| HomeView.Home.RowDetailLoaded | pages/index.js:82-84 | After the detail loads, it is both the selected coin and the draft, and the dialog is open. |
| HomeView.Home.EditChange | pages/index.js:90-93 | The draft becomes the previous draft with only the named property set. |
| HomeView.Home.EditSubmit | pages/index.js:95-100 | With no draft, nothing changes. Otherwise the slice applies `updateCoin(draft)` (status and error unchanged) and the dialog closes. The slice invariant is preserved. |
| HomeView.Home.RequestSort | pages/index.js:102-106 | The sort column becomes the clicked one. The direction becomes `desc` only if that column was already sorted `asc`, and `asc` otherwise. |
| HomeView.Home.CloseDialog | pages/index.js:199 | Closing the dialog sets `open` to false. |
| Scenarios.NameKeys | pages/index.js:109-110 | The sort keys of "Bitcoin" and "Ether" are "bitcoin" and "ether". |
| Scenarios.SortByNameScenario | pages/index.js:108-114 | Sorting Bitcoin and Ether by name gives Bitcoin, Ether under `asc` and Ether, Bitcoin under `desc`. |
| Scenarios.BitcoinLacksEth | pages/index.js:117 | "bitcoin" does not include "eth". |
| Scenarios.EthMatchesEtherOnly | pages/index.js:117 | The search "eth" matches Ether and not Bitcoin. |
| Scenarios.FilterEthScenario | pages/index.js:116-118 | Filtering Bitcoin and Ether by "eth" keeps only Ether. |
| Scenarios.SearchScenario | pages/index.js:108-118 | The rows for search "eth", sorted by name `asc`, are exactly Ether. |
| Scenarios.PriceEditSlot | toolkit/cryptoSlice.js:23 | The slot written for Bitcoin's price edit has the new price, the id and status `succeeded`, and no name or symbol. |
| Scenarios.UpdatePriceScenario | toolkit/cryptoSlice.js:20-24 | Editing Bitcoin's price rewrites the first slot. It has the new price, the id and status `succeeded`, but no longer a name or symbol; Ether is untouched. |

## Left out

- Fetching the coin list (`fetchCoins`), the `useQuery` configuration and its `onSuccess` dispatch, and the `useEffect` re-dispatch (pages/index.js:35-65) are network and library code. `setCoins` is modelled as the reducer they call.
- HomeView.Home.RowDetailLoaded: only the successful end of `handleRowClick` is modelled. The detail is a parameter; the HTTP request and the `console.error` path are left out. The detail endpoint's body may be an envelope with no `id` of its own; the model takes whatever object arrives.
- HomeView.Home.Refresh: the `refetch()` that follows the reset is a network call and is left out.
- The `isLoading`/`isError` early returns, all JSX and MUI styling, `toFixed` price formatting and the icon URL built from `coin.symbol` are left out. They are rendering, not state logic. Rendering a row whose `symbol` is missing, as after `updateCoin`, is not modelled.
- `toolkit/store.js` (store and persistence wiring) and `pages/_app.js` (provider composition) are not part of this model.
- JsString.Lower: `toLowerCase` maps only the ASCII letters `A`-`Z`. Unicode case mapping is not modelled.
- JsString.Less compares Dafny characters (Unicode scalar values), not UTF-16 code units. The two orders differ only for characters outside the Basic Multilingual Plane.
- JsArray.SortWith: the ECMAScript sort algorithm is implementation-defined. It is modelled as a stable insertion sort. Uniqueness of the stable ordering is not proved, so any other stable sort is not shown to give the same sequence.
- CoinTable.SortedCoins: throwing is modelled as "some coin is unkeyable when there are at least two coins", since every element takes part in some comparison. Which comparison throws first is not modelled. Because the copy is sorted, a throw leaves nothing observable behind.
- JsValue.Value: numbers are integers; floating point and `NaN` are not modelled. Coins hold no functions, so a property named `toLowerCase` cannot make a non-string key callable. `===` on two objects or arrays is false, since separately built values are distinct references.
- CryptoSlice.SpreadSlot: the draft state's `list` is a proxy that the slot write then changes. The model's slot holds the list as it was before the write; the self-reference this creates in the original is not modelled.
- CryptoSlice.CoinsState.SetCoins: the payload is taken to be an array of objects. `fetchCoins` coerces anything else to `[]`.
- CoinTable.FilteredCoins: list elements are objects, so the `coin &&` guard always passes.
