# Dessert recipes: decoding, search and client state

A model of the logic behind a small iOS app that lists desserts from
TheMealDB and shows one recipe. There are three parts:

- **Meal decoding** (`MealData`, over the JSON values of `Json`). The
  `Meal` initializer reads three required string fields and one optional
  one. It then turns the twenty numbered `strIngredientN`/`strMeasureN`
  slots into an ordered list of ingredient/measurement pairs. The list
  becomes `nil` when a slot's ingredient has the wrong type, or its measure
  has the wrong type next to a string ingredient. `MealResults`
  is the envelope `{ "meals": [...] }`.
- **Name order** (`NameOrder`). The list is sorted by `strMeal` with
  Swift's `<` on strings, modelled as lexicographic order on characters.
  The module holds that order's laws and an insertion sort proved to give a
  sorted permutation.
- **Search** (`Search`). `filteredMeals` prefix-matches the lowercased
  query against each lowercased meal name.
- **The client** (`Client`). The class `ApiService` holds `meals` and
  `selectedMeal` and has `fetchMeals`, `fetchMealDetails(id:)` and
  `clearSelectedMeal`. Each method is proved against a state-transition
  function. The transition functions carry the invariants and properties:
  the list stays sorted, a failed list fetch keeps the state, and the
  selection is cleared before each detail fetch, so a failed detail fetch
  leaves nothing selected.

The network is a parameter: `get: string -> Response` says what requesting
an address yields. That is either a rejected URL, a transport error, a body
that is not JSON, or a parsed JSON value. Decoding starts from the parsed
value.

Points where the code's behaviour is easy to misread:

- A wrongly typed ingredient slot makes the whole ingredient list `nil`,
  because of `try?`, while the meal itself still decodes.
- Neither the ingredient strings nor the search query are trimmed. A
  whitespace-only ingredient is kept, and a whitespace-only query filters.
- The ingredient is decoded before the measure. So a wrongly typed measure
  next to an absent or null ingredient is never read, and throws nothing.
- The HTTP status is not looked at. A body received with any status is
  decoded like any other.

## Model

| member | source | states |
|---|---|---|
| Json.Decode | Fetch_iOS_Challenge/MealData.swift:47-49 | a required field decodes iff it is present and a string, yielding that string; missing gives keyNotFound, null gives valueNotFound |
| Json.Container | Fetch_iOS_Challenge/MealData.swift:46 | a keyed container exists iff the value is an object, and holds its fields; null gives valueNotFound, any other value typeMismatch |
| Json.DecodeIfPresent | Fetch_iOS_Challenge/MealData.swift:50 | an optional field throws iff it is present and neither null nor a string; absent or null gives nil; a string is kept verbatim |
| MealData.CodingKeyFor | Fetch_iOS_Challenge/MealData.swift:71-81 | `CodingKeys(stringValue:)` gives a key exactly for the 44 declared raw values, and that key has the given raw value |
| MealData.DecimalString | Fetch_iOS_Challenge/MealData.swift:55 | interpolating an index gives a non-empty string of decimal digits |
| MealData.DecimalRoundTrip | Fetch_iOS_Challenge/MealData.swift:55 | reading the digits back gives the index, so distinct indices give distinct keys |
| MealData.SlotKeysDeclared | Fetch_iOS_Challenge/MealData.swift:55-57 | for every index in 1...20 both built keys are declared coding keys, so neither force-unwrap traps |
| MealData.SlotKeysDistinct | Fetch_iOS_Challenge/MealData.swift:55-57 | different indices read different fields, and an ingredient key is never a measure key |
| MealData.QualifyingIndices | Fetch_iOS_Challenge/MealData.swift:52-59 | the indices in a range whose ingredient and measure are both non-empty strings: all of them, in increasing order, at most one per index |
| MealData.SlotIngredientMeaning | Fetch_iOS_Challenge/MealData.swift:53-61 | one slot throws iff its ingredient is wrongly typed, or its ingredient is a string and its measure is wrongly typed; otherwise it yields a pair iff both sides are non-empty strings, and the pair holds them verbatim |
| MealData.CompactSlotsFails | Fetch_iOS_Challenge/MealData.swift:52-62 | the map over the slots throws iff some slot in range is malformed, wherever it lies |
| MealData.CompactSlotsContents | Fetch_iOS_Challenge/MealData.swift:52-62 | when the map succeeds it holds, position by position, the pairs of exactly the qualifying indices |
| MealData.IngredientsNilIff | Fetch_iOS_Challenge/MealData.swift:52 | `ingredients` is nil iff one of the twenty slots is malformed |
| MealData.IngredientsAreQualifyingSlots | Fetch_iOS_Challenge/MealData.swift:52-62 | otherwise it lists the pair of every qualifying slot in 1...20 in index order and nothing else; gaps do not stop the scan; at most 20 pairs; no empty string in a pair |
| MealData.IngredientsExample | Fetch_iOS_Challenge/MealData.swift:52-62 | on slots holding a pair, an empty ingredient, a null ingredient, a whitespace pair and a stray numeric measure, the list is the first and the whitespace pair |
| MealData.DecodeMealSucceedsIff | Fetch_iOS_Challenge/MealData.swift:45-50 | a meal decodes iff `idMeal`, `strMeal`, `strMealThumb` are strings and `strInstructions` is absent, null or a string; the ingredient slots never make it fail |
| MealData.DecodedMealFields | Fetch_iOS_Challenge/MealData.swift:25-52 | a decoded meal holds its fields verbatim, nil instructions for absent or null, the slot-derived ingredient list, and `id == idMeal` |
| MealData.MalformedSlotKeepsMeal | Fetch_iOS_Challenge/MealData.swift:47-52 | a malformed slot leaves `ingredients` nil while the meal itself still decodes with its name |
| MealData.DecodeMealArray | Fetch_iOS_Challenge/MealData.swift:17-20 | `[Meal]` decodes iff every element does, one meal per element in order; otherwise the error is that of the first failing element |
| MealData.DecodeMealResultsIff | Fetch_iOS_Challenge/MealData.swift:17-20 | the envelope decodes iff `meals` is an array whose elements all decode; a missing or null `meals` fails; no partial list |
| NameOrder.LessIrreflexive | Fetch_iOS_Challenge/ApiService.swift:46 | no name sorts before itself |
| NameOrder.LessTransitive | Fetch_iOS_Challenge/ApiService.swift:46 | the name order is transitive |
| NameOrder.LessTrichotomy | Fetch_iOS_Challenge/ApiService.swift:46 | of two names, one sorts before the other or they are equal |
| NameOrder.InsertByName | Fetch_iOS_Challenge/ApiService.swift:46 | inserting a meal into a name-sorted list gives a name-sorted list with that meal added |
| NameOrder.SortByName | Fetch_iOS_Challenge/ApiService.swift:46 | `sorted { $0.strMeal < $1.strMeal }` gives a name-sorted permutation of its input |
| NameOrder.SortedNamesUnique | Fetch_iOS_Challenge/ApiService.swift:46 | two name-sorted permutations of one list show the same names in the same order: the sort is determined up to ties |
| Search.LowerChar | Fetch_iOS_Challenge/ContentView.swift:73 | an upper-case ASCII letter becomes its lower-case letter, every other character is kept, and no upper-case letter is left |
| Search.LowerCharSameIff | Fetch_iOS_Challenge/ContentView.swift:73 | two characters lower alike iff they are equal or the two cases of one letter |
| Search.Lowercased | Fetch_iOS_Challenge/ContentView.swift:73 | `lowercased()` keeps the length and lowers each character in place |
| Search.LowercasedIdempotent | Fetch_iOS_Challenge/ContentView.swift:73 | lowering twice is lowering once |
| Search.NameCaseIgnored | Fetch_iOS_Challenge/ContentView.swift:73 | two names that differ only in letter case match the same queries |
| Search.QueryCaseIgnored | Fetch_iOS_Challenge/ContentView.swift:73 | a meal matches a query iff it matches the lowercased query |
| Search.KeepMatching | Fetch_iOS_Challenge/ContentView.swift:72-74 | `filter` keeps an order-preserving subsequence of the meals, every kept meal matches, and every matching meal is kept |
| Search.KeepMatchingCounts | Fetch_iOS_Challenge/ContentView.swift:72-74 | every matching meal is kept as often as it occurs, and no other meal |
| Search.FilteredMeals | Fetch_iOS_Challenge/ContentView.swift:68-76 | an empty query gives the list unchanged; any query gives the ordered subsequence of exactly the meals whose lowercased name starts with the lowercased query |
| Search.EmptyQueryFilterKeepsAll | Fetch_iOS_Challenge/ContentView.swift:69-74 | filtering with the empty query would keep every meal too, so the `isEmpty` branch agrees with the filter |
| Search.FilteredKeepsNameOrder | Fetch_iOS_Challenge/ContentView.swift:68-76 | searching a name-sorted list gives a name-sorted list |
| Search.PrefixOnly | Fetch_iOS_Challenge/ContentView.swift:72-73 | for every list and query, a meal whose lowercased name does not start with the lowercased query is not shown, wherever else the query occurs |
| Search.ContainsButDoesNotStartWith | Fetch_iOS_Challenge/ContentView.swift:73 | example: "Apple Chocolate Pie" holds "choc" at position 6 yet does not match "choc" |
| Search.BlankQueryFilters | Fetch_iOS_Challenge/ContentView.swift:69-74 | for every list, a one-blank query is not trimmed to empty: it shows exactly the meals whose name starts with a blank, each as often as it occurs |
| Search.SearchExample | Fetch_iOS_Challenge/ContentView.swift:68-76 | "CHOC" over four meals keeps the two chocolate ones in list order, whatever their case, and drops the one with "Chocolate" mid-name |
| Client.LookupEndpoint | Fetch_iOS_Challenge/ApiService.swift:71 | the lookup address is the fixed prefix followed by the id, unchanged |
| Client.Load | Fetch_iOS_Challenge/ApiService.swift:39-42 | a response yields meals iff its body parsed and is an object whose `meals` array decodes element by element; it then yields one meal per element, in order |
| Client.NullMealsLoadNothing | Fetch_iOS_Challenge/ApiService.swift:80 | `{"meals": null}` loads nothing |
| Client.EmptyArrayLoadsEmpty | Fetch_iOS_Challenge/ApiService.swift:83 | `{"meals": []}` loads an empty list rather than failing |
| Client.FetchMealsStep | Fetch_iOS_Challenge/ApiService.swift:30-51 | a list fetch never changes the selection; on failure the state is unchanged; on success `meals` is a name-sorted permutation of the loaded meals |
| Client.FetchDetailsStep | Fetch_iOS_Challenge/ApiService.swift:62-92 | a detail fetch never changes `meals`; afterwards a meal is selected iff the response loaded a non-empty list, and it is the first of that list |
| Client.ClearStep | Fetch_iOS_Challenge/ApiService.swift:100-102 | clearing unsets the selection and keeps `meals` |
| Client.InitialMealsSorted | Fetch_iOS_Challenge/ApiService.swift:21-22 | the initial state has no meals, no selection, and satisfies the sortedness invariant |
| Client.StepsKeepMealsSorted | Fetch_iOS_Challenge/ApiService.swift:46 | every operation keeps `meals` name-sorted |
| Client.ClearIdempotent | Fetch_iOS_Challenge/ApiService.swift:100-102 | clearing twice is clearing once |
| Client.DetailsForgetEarlierSelection | Fetch_iOS_Challenge/ApiService.swift:65-67 | the state after a detail fetch does not depend on the earlier selection |
| Client.FailedDetailsClearSelection | Fetch_iOS_Challenge/ApiService.swift:65-91 | a failed detail fetch, of any kind, leaves nothing selected |
| Client.FetchesCommute | Fetch_iOS_Challenge/ApiService.swift:30-92 | a list fetch and a detail fetch touch different properties, so their order does not matter |
| Client.SearchShowsSortedList | Fetch_iOS_Challenge/ContentView.swift:68-76 | with the service's invariant, every list the search box shows is name-sorted |
| Client.FetchMealsNamesDeterminedByContent | Fetch_iOS_Challenge/ApiService.swift:46 | two successful list fetches of the same meals, in any arrival order, show the same names in the same order |
| Client.ApiService.constructor | Fetch_iOS_Challenge/ApiService.swift:21-22 | a new service has no meals and no selection |
| Client.ApiService.FetchMeals | Fetch_iOS_Challenge/ApiService.swift:30-51 | requests the dessert list address; the new state is the list-fetch transition of the old one; selection kept; failure keeps `meals`; success gives a sorted permutation |
| Client.ApiService.FetchMealDetails | Fetch_iOS_Challenge/ApiService.swift:62-92 | requests the lookup address of the id; the new state is the detail-fetch transition; `meals` kept; the selection is the first loaded meal or nil |
| Client.ApiService.ClearSelectedMeal | Fetch_iOS_Challenge/ApiService.swift:100-102 | the selection becomes nil and `meals` is kept |

## Left out

- The SwiftUI views (`DetailView.swift`, `SearchBar.swift`, the rows and toolbar of `ContentView.swift`) are layout only and are not part of this model.
- `URLSession` and `URL(string:)` are foreign calls. They are folded into the `get` parameter, whose outcomes include a rejected address and a transport error.
- `JSONDecoder`'s byte-level parsing is not modelled. Decoding starts from a parsed JSON value, and a body that does not parse is the `NotJson` outcome. Numbers and booleans are one kind of value, since every decoder here treats them alike as "not a string".
- `DispatchQueue.main.async` and `await` are concurrency. Each operation's updates are applied in program order, with the clear before the set, so two overlapping detail fetches racing each other are not modelled.
- `Ingredient.id = UUID()` is random. It is left out of `Ingredient`, so pairs compare by their strings.
- `lowercased()` is modelled on the ASCII letters only. Swift's Unicode case mapping, which can change a string's length, is not modelled.
- String `<` and `hasPrefix` are modelled on characters. Swift compares by Unicode canonical equivalence, which is not modelled.
- The `print` calls that log errors are output only and are left out.
- NameOrder.SortByName: keeps meals with equal names in input order, and through `FetchMealsStep` the state equation of `ApiService.FetchMeals` fixes ties that way too. This is the model's choice: the source's sort promises only a name-sorted permutation, with no order among ties. `SortedNamesUnique` shows that the names shown, in order, do not depend on that choice.
