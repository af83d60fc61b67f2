# Pokedex list: pagination, search and grid layout

A Dafny model of the list screen of a small Pokedex app. The app pages
through a public creature catalog API and shows the entries two per row. It
also filters the list with a client-side search. The model covers:

- the list view model (`PokemonListViewModel`), a class with the view
  model's eight fields and its two state changes:
  - `loadPokemonPaginated` merges one fetched page;
  - `searchPokemonList` filters the displayed list, or restores the cached
    list when the query is empty;
- the pure logic inside those two operations: parsing the creature number
  from a resource URL, building the sprite URL, capitalising the name, and
  the search rule (case-insensitive substring on the name, or exact match on
  the number's decimal form);
- the row arithmetic of the list screen: the row count, which entries a row
  shows, and when the last row triggers the next page load;
- the repository wrapper, which turns every failed API call into
  `Error("An unknown Error occured")`. That is the repository's own spelling.

Modules:

- `Repository` (repository.dfy): the `Resource` result wrapper, the page
  payload, and `GetPokemonList`.
- `Strings` (strings.dfy): the Kotlin text operations the code uses, on
  ASCII.
- `PokemonEntries` (pokemon_entries.dfy): the entry mapping and the search
  filter.
- `ListViewModel` (list_view_model.dfy): the class `PokemonListViewModel`,
  plus client methods that chain several calls.
- `PokemonListScreen` (list_screen.dfy): the grid and the load trigger.

The page fetch is not a call in the model. `LoadPokemonPaginated` takes the
repository's answer as a parameter and returns the `(limit, offset)` it
requests. Each operation runs as one atomic step.

Behaviour as written:

- Line 59 of `PokemonListViewModel.kt` assigns `isSearchStarting = true` in
  the branch where it was evidently meant to be cleared, so the flag is
  always true. `Valid()` states this. Every non-empty search therefore
  filters the list currently shown and re-takes the cache from it.
  `SearchTwiceThenClear` shows the consequence: clearing after two searches
  gives back the first search's result, not the list from before the
  searches.
- A successful load appends to `pokemonList` even while a search is active.
  The last-row trigger (`LoadTriggerRows`) does not load during a search,
  but the retry button (lines 230-233 of `PokemonListScreen.kt`) calls
  `loadPokemonPaginated` whenever the error message is non-empty, and a
  search leaves that message as it was. `RetryDuringSearch` shows the
  consequence of a failed load, a search, a successful retry and a cleared
  query. The retried page appears unfiltered after the search results. It
  is lost when the query is cleared, because the cache from before the
  search is restored. It is never requested again, because the cursor has
  moved past it.
- The repository spells the fallback message "occured".

## Model

| member | source | states |
|---|---|---|
| `Repository.GetPokemonList` | app/src/main/java/com/plcoding/jetpackcomposepokedex/repository/PokemonRepository.kt:14-21 | success exactly when the API call returned, with its response as data; every thrown call gives the fixed "An unknown Error occured" message |
| `Strings.Capitalize` | app/src/main/java/com/plcoding/jetpackcomposepokedex/pokemonlist/PokemonListViewModel.kt:87-90 | same length; every character after the first unchanged; a lower-case first letter becomes its upper-case form, any other first character stays; empty stays empty |
| `Strings.CapitalizeIdempotent` | app/src/main/java/com/plcoding/jetpackcomposepokedex/pokemonlist/PokemonListViewModel.kt:87-90 | capitalising an already capitalised name changes nothing |
| `Strings.TakeLastWhileDigit` | app/src/main/java/com/plcoding/jetpackcomposepokedex/pokemonlist/PokemonListViewModel.kt:81-84 | the result is a suffix of the input, all digits, and the character before it (if any) is not a digit |
| `Strings.TakeLastWhileDigitUnique` | app/src/main/java/com/plcoding/jetpackcomposepokedex/pokemonlist/PokemonListViewModel.kt:81-84 | those three properties determine the result: it is the maximal trailing digit run |
| `Strings.TakeLastWhileDigitAfter` | app/src/main/java/com/plcoding/jetpackcomposepokedex/pokemonlist/PokemonListViewModel.kt:81-84 | after a prefix that does not end in a digit, a digit string is exactly what is taken |
| `Strings.DecimalString` | app/src/main/java/com/plcoding/jetpackcomposepokedex/pokemonlist/PokemonListViewModel.kt:55 | `toString` of a non-negative number is non-empty, all digits, with no leading zero, and one digit long exactly below 10 |
| `Strings.ParseDigits` | app/src/main/java/com/plcoding/jetpackcomposepokedex/pokemonlist/PokemonListViewModel.kt:91 | `toInt` of a string of `k` digits is below `10^k`, and at least `10^(k-1)` when the first digit is not zero |
| `Strings.IntToString` | app/src/main/java/com/plcoding/jetpackcomposepokedex/pokemonlist/PokemonListViewModel.kt:55 | `toString` of a non-negative number is a numeral without leading zeros that parses back to the number; of a negative number, "-" followed by such a numeral for its magnitude |
| `Strings.ParseDecimalString` | app/src/main/java/com/plcoding/jetpackcomposepokedex/pokemonlist/PokemonListViewModel.kt:91 | `toInt` of the decimal form of `n` is `n` |
| `Strings.DecimalStringOfParse` | app/src/main/java/com/plcoding/jetpackcomposepokedex/pokemonlist/PokemonListViewModel.kt:91 | for a digit string without leading zeros, `toString` of its `toInt` is the string itself |
| `Strings.DecimalStringIff` | app/src/main/java/com/plcoding/jetpackcomposepokedex/pokemonlist/PokemonListViewModel.kt:55 | the decimal form of `n` equals a query exactly when the query is a canonical numeral whose value is `n` (both directions) |
| `Strings.Trim` | app/src/main/java/com/plcoding/jetpackcomposepokedex/pokemonlist/PokemonListViewModel.kt:54-55 | the trimmed query is no longer than the query and is empty or starts and ends with non-whitespace |
| `Strings.TrimIsSlice` | app/src/main/java/com/plcoding/jetpackcomposepokedex/pokemonlist/PokemonListViewModel.kt:54-55 | the trimmed query is a slice of the query with only whitespace before and after it; with the ends of `Trim`, only the leading and trailing whitespace is removed |
| `Strings.TrimAllWhitespace` | app/src/main/java/com/plcoding/jetpackcomposepokedex/pokemonlist/PokemonListViewModel.kt:54-55 | a whitespace-only query trims to "" |
| `Strings.TrimNoOp` | app/src/main/java/com/plcoding/jetpackcomposepokedex/pokemonlist/PokemonListViewModel.kt:54-55 | a query that neither starts nor ends with whitespace is its own trim |
| `Strings.TrimIdempotent` | app/src/main/java/com/plcoding/jetpackcomposepokedex/pokemonlist/PokemonListViewModel.kt:54-55 | trimming twice is trimming once |
| `Strings.ContainsIgnoreCase` | app/src/main/java/com/plcoding/jetpackcomposepokedex/pokemonlist/PokemonListViewModel.kt:54 | the name contains the needle when some window of the name equals it up to ASCII case; a needle longer than the name is never contained, and one equal to the name up to case always is |
| `Strings.ContainsEmpty` | app/src/main/java/com/plcoding/jetpackcomposepokedex/pokemonlist/PokemonListViewModel.kt:54 | every name contains the empty query |
| `Strings.ContainsIgnoresNeedleCase` | app/src/main/java/com/plcoding/jetpackcomposepokedex/pokemonlist/PokemonListViewModel.kt:54 | the name test gives the same answer for two queries that differ only in letter case |
| `PokemonEntries.DropTrailingSlash` | app/src/main/java/com/plcoding/jetpackcomposepokedex/pokemonlist/PokemonListViewModel.kt:80-81 | exactly one character, the trailing `/`, is dropped when present; otherwise the URL is unchanged |
| `PokemonEntries.UrlNumber` | app/src/main/java/com/plcoding/jetpackcomposepokedex/pokemonlist/PokemonListViewModel.kt:80-85 | the number string consists of digits only |
| `PokemonEntries.UrlNumberIsTrailingDigitRun` | app/src/main/java/com/plcoding/jetpackcomposepokedex/pokemonlist/PokemonListViewModel.kt:80-85 | the number string is the maximal trailing digit run of the URL after at most one trailing `/` is dropped |
| `PokemonEntries.ParsesIff` | app/src/main/java/com/plcoding/jetpackcomposepokedex/pokemonlist/PokemonListViewModel.kt:80-91 | the load's precondition (the URL, less one trailing `/`, ends in a digit) holds exactly when the number string is non-empty, so `toInt` does not throw |
| `PokemonEntries.UrlNumberOf` | app/src/main/java/com/plcoding/jetpackcomposepokedex/pokemonlist/PokemonListViewModel.kt:80-85 | a URL ending in the decimal form of `n`, with or without one `/`, after a non-digit gives exactly that decimal form |
| `PokemonEntries.UrlNumberExamples` | app/src/main/java/com/plcoding/jetpackcomposepokedex/pokemonlist/PokemonListViewModel.kt:80-85 | `.../pokemon/25/` and `.../pokemon/25` both give "25" |
| `PokemonEntries.SpriteUrl` | app/src/main/java/com/plcoding/jetpackcomposepokedex/pokemonlist/PokemonListViewModel.kt:86 | the sprite URL starts with the sprite prefix, then holds the number string, then ends in ".png", and its length is the sum of the three |
| `PokemonEntries.SpriteUrlInjective` | app/src/main/java/com/plcoding/jetpackcomposepokedex/pokemonlist/PokemonListViewModel.kt:86 | different number strings give different sprite URLs |
| `PokemonEntries.ToEntry` | app/src/main/java/com/plcoding/jetpackcomposepokedex/pokemonlist/PokemonListViewModel.kt:79-91 | the stored number is non-negative; the name keeps its length; the image URL is the sprite prefix, the digit string and ".png" |
| `PokemonEntries.ToEntryOfUrl` | app/src/main/java/com/plcoding/jetpackcomposepokedex/pokemonlist/PokemonListViewModel.kt:80-91 | an entry whose URL ends in the decimal form of `n` gets number `n`, the sprite URL for `n`, and its capitalised name |
| `PokemonEntries.ToEntryNumberPrintsBack` | app/src/main/java/com/plcoding/jetpackcomposepokedex/pokemonlist/PokemonListViewModel.kt:91 | when the URL's digits have no leading zero, the stored number prints back as those digits |
| `PokemonEntries.MapEntries` | app/src/main/java/com/plcoding/jetpackcomposepokedex/pokemonlist/PokemonListViewModel.kt:79-94 | one displayed entry per result, the i-th built from the i-th result, in result order |
| `PokemonEntries.SearchMatches` | app/src/main/java/com/plcoding/jetpackcomposepokedex/pokemonlist/PokemonListViewModel.kt:53-56 | the `filter` predicate: the name contains the trimmed query ignoring case, or the number prints as the trimmed query; a blank query and the entry's own name in any case always match |
| `PokemonEntries.SearchMatchesIff` | app/src/main/java/com/plcoding/jetpackcomposepokedex/pokemonlist/PokemonListViewModel.kt:53-56 | an entry matches exactly when its name contains the trimmed query ignoring case, or the trimmed query is a numeral without leading zeros for its number |
| `PokemonEntries.FilterEntries` | app/src/main/java/com/plcoding/jetpackcomposepokedex/pokemonlist/PokemonListViewModel.kt:53-56 | the result has no more entries than the list, and an entry is in it exactly when it is in the list and matches the query |
| `PokemonEntries.FilterAppend` | app/src/main/java/com/plcoding/jetpackcomposepokedex/pokemonlist/PokemonListViewModel.kt:53-56 | filtering a concatenation is the concatenation of the filtered parts, so the filter keeps list order |
| `PokemonEntries.FilterKeepsAll` | app/src/main/java/com/plcoding/jetpackcomposepokedex/pokemonlist/PokemonListViewModel.kt:53-56 | when every entry matches, the filter returns the list unchanged |
| `PokemonEntries.FilterBlankQuery` | app/src/main/java/com/plcoding/jetpackcomposepokedex/pokemonlist/PokemonListViewModel.kt:53-56 | a whitespace-only query keeps every entry |
| `PokemonEntries.FilterIdempotent` | app/src/main/java/com/plcoding/jetpackcomposepokedex/pokemonlist/PokemonListViewModel.kt:53-56 | filtering the filtered list with the same query changes nothing |
| `PokemonEntries.FilterPair` | app/src/main/java/com/plcoding/jetpackcomposepokedex/pokemonlist/PokemonListViewModel.kt:53-56 | a two-entry list is filtered to each of its entries exactly when it matches, in order |
| `PokemonEntries.FilterExamples` | app/src/main/java/com/plcoding/jetpackcomposepokedex/pokemonlist/PokemonListViewModel.kt:53-56 | over Bulbasaur (1) and Ivysaur (2), "bulb" keeps only Bulbasaur and " 2 " keeps only Ivysaur |
| `ListViewModel.PokemonListViewModel.constructor` | app/src/main/java/com/plcoding/jetpackcomposepokedex/pokemonlist/PokemonListViewModel.kt:29-70 | the initial fields, then the state after the first load: cursor 1 and the mapped page on success, cursor 0 and the message on error |
| `ListViewModel.PokemonListViewModel.LoadPokemonPaginated` | app/src/main/java/com/plcoding/jetpackcomposepokedex/pokemonlist/PokemonListViewModel.kt:72-107 | requests `PAGE_SIZE` at `curPage * PAGE_SIZE`. On success: `endReached` is `oldCurPage * PAGE_SIZE >= count`, the cursor goes up by one, the error becomes "", and the mapped page is appended to the unchanged old list. On error: only the message changes. Loading ends false; search fields are untouched |
| `ListViewModel.PokemonListViewModel.SearchPokemonList` | app/src/main/java/com/plcoding/jetpackcomposepokedex/pokemonlist/PokemonListViewModel.kt:40-66 | an empty query restores the cache and clears `isSearching`. Any other query shows the filter of the displayed list, caches that list, and sets `isSearching`. Paging fields are untouched and `isSearchStarting` stays true |
| `ListViewModel.RetryAfterError` | app/src/main/java/com/plcoding/jetpackcomposepokedex/pokemonlist/PokemonListViewModel.kt:75-104 | a failed load and its retry request the same offset |
| `ListViewModel.LoadTwoPages` | app/src/main/java/com/plcoding/jetpackcomposepokedex/pokemonlist/PokemonListViewModel.kt:95-98 | two successful loads append both pages in order and advance the cursor by two |
| `ListViewModel.SearchTwiceThenClear` | app/src/main/java/com/plcoding/jetpackcomposepokedex/pokemonlist/PokemonListViewModel.kt:41-62 | as written, clearing after two searches restores the first search's result, not the list before the searches |
| `ListViewModel.RetryDuringSearch` | app/src/main/java/com/plcoding/jetpackcomposepokedex/pokemonlist/PokemonListScreen.kt:230-233 | a failed load, a search, a successful retry and a cleared query: the retry requests the page at the old cursor and advances the cursor; during the search the list is the search results followed by the unfiltered retried page; after the clear the list is the one from before the search, so the page is lost and, with the cursor past it, never requested again |
| `ListViewModel.LoadWhenCallThrows` | app/src/main/java/com/plcoding/jetpackcomposepokedex/pokemonlist/PokemonListViewModel.kt:75-104 | a load whose API call throws records "An unknown Error occured" as the error and leaves the list and the cursor unchanged |
| `ListViewModel.SearchThenClear` | app/src/main/java/com/plcoding/jetpackcomposepokedex/pokemonlist/PokemonListViewModel.kt:47-62 | one search followed by an empty query restores the list from before the search |
| `ListViewModel.EndDetectionScenario` | app/src/main/java/com/plcoding/jetpackcomposepokedex/pokemonlist/PokemonListViewModel.kt:78 | page size 10 and count 15: the end is reported only on the third load |
| `PokemonListScreen.ItemCount` | app/src/main/java/com/plcoding/jetpackcomposepokedex/pokemonlist/PokemonListScreen.kt:210-215 | `2 * itemCount >= size` and `2 * itemCount <= size + 1` |
| `PokemonListScreen.ItemCountUnique` | app/src/main/java/com/plcoding/jetpackcomposepokedex/pokemonlist/PokemonListScreen.kt:210-215 | those bounds determine the row count, so it is ceil(size / 2) |
| `PokemonListScreen.PokedexRow` | app/src/main/java/com/plcoding/jetpackcomposepokedex/pokemonlist/PokemonListScreen.kt:256-274 | the left cell is entry `2 * rowIndex`; the right cell is entry `2 * rowIndex + 1` exactly when that index is in bounds, otherwise the spacer |
| `PokemonListScreen.RowInBounds` | app/src/main/java/com/plcoding/jetpackcomposepokedex/pokemonlist/PokemonListScreen.kt:216-257 | every rendered row's left index is within the list |
| `PokemonListScreen.Grid` | app/src/main/java/com/plcoding/jetpackcomposepokedex/pokemonlist/PokemonListScreen.kt:216-221 | one row per `itemCount` |
| `PokemonListScreen.GridShowsEachEntryOnce` | app/src/main/java/com/plcoding/jetpackcomposepokedex/pokemonlist/PokemonListScreen.kt:210-274 | reading the rows left to right, top to bottom gives back the list: each entry is shown exactly once, in order |
| `PokemonListScreen.EntryPosition` | app/src/main/java/com/plcoding/jetpackcomposepokedex/pokemonlist/PokemonListScreen.kt:257-266 | entry `i` is in row `i / 2`, on the left for even `i` and on the right for odd `i` |
| `PokemonListScreen.SpacerOnlyInLastOddRow` | app/src/main/java/com/plcoding/jetpackcomposepokedex/pokemonlist/PokemonListScreen.kt:264-273 | the spacer fills a row's right cell exactly in the last row of an odd-sized list |
| `PokemonListScreen.TriggersLoad` | app/src/main/java/com/plcoding/jetpackcomposepokedex/pokemonlist/PokemonListScreen.kt:217 | among the rendered rows only the last can trigger a load, and the last does exactly when the end is not reached and nothing is loading or being searched |
| `PokemonListScreen.LoadTriggerRows` | app/src/main/java/com/plcoding/jetpackcomposepokedex/pokemonlist/PokemonListScreen.kt:216-218 | the rows that trigger a load are just the last row, when the list is non-empty, not ended, not loading and not searching; otherwise none |

## Left out

- `calcDominantColor`: bitmap copying and Android's Palette library. The colour is computed inside that library, with an asynchronous callback.
- All Compose UI: layout, modifiers, image loading, the look of the retry section, search-bar focus and hint, navigation. Only the row index arithmetic, the load trigger and the retry button's call (as `RetryDuringSearch`) are modelled.
- Coroutines and dispatchers. Each operation is one atomic step, so the model does not capture a slow load that completes after a search has begun. `searchPokemonList` picks its base list before launching; in one atomic step that is the same as picking it inside.
- The intermediate `isLoading = true` of a load: after the atomic step it is always false again.
- The network call and the Retrofit API. A page fetch is the `Resource` value given to `LoadPokemonPaginated`. `GetPokemonList` takes the call's outcome (returned or threw) as a parameter.
- `getPokemonInfo` and `PokemonDetailViewModel`: plain delegation to the API for the detail screen, outside the list core.
- `PAGE_SIZE` comes from a constants file that is not part of this model. It is a positive constructor parameter.
- The `PokedexListEntry` data class and the API response classes are defined in files outside the modelled source. The datatypes here carry only the fields the view model reads and writes.
- Unicode: digit, letter-case, whitespace and case-insensitive tests are restricted to ASCII.
- `number.toInt()` on an empty digit run throws, and `result.data!!` / `result.message!!` on null throw. A load therefore requires every URL of a successful page to end in a digit (`PageParses`). The datatypes always carry the payload and the message.
- 32-bit `Int` arithmetic: `toInt` overflow on very long digit runs and overflow of `curPage * PAGE_SIZE` are not modelled (unbounded integers).
