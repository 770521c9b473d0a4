# Pokedex: list filter, number label and caught flag

A Dafny model of the pure logic inside the Pokedex Android app. The app lists the first
151 entries of a public creature API. The list can be narrowed by a name prefix. A detail
screen shows one entry and lets the user mark it as caught. The model covers three pieces:

- **The list adapter** (`PokedexAdapter`). It holds the full list `pokemon` and the
  filtered view `filtered` that the rows are drawn from. It covers the prefix filter
  (`performFiltering` and `publishResults`), the row count (`getItemCount`) and the list
  load that capitalises each name. `filtered` is a Java reference that can become null,
  so the model holds it as an `Option`.
- **The detail record** (`PokemonActivity`, `NumberFormat`). The `#%03d` number label
  and its inverse reading are modelled. So are the fold that assigns type labels by slot
  and the pick of the first flavor text as the description.
- **The caught flag** (`PokemonActivity`, `Preferences`). The preference file is a
  `map<string, bool>` whose writes take effect at once. `toggleCatch`, `saveState` and
  `setButtonText` work over it.

JSON responses appear as already-decoded records. A network or JSON failure appears as
the `Failure` side of a `Result`.

Modules: `Wrappers` (Option/Result), `Ascii` (ASCII upper-casing, `startsWith`,
capitalisation), `PokedexAdapter`, `NumberFormat`, `Preferences`, `PokemonActivity`.

Behaviour the model keeps from the code:

- The filter only assigns `results.values` inside its matching branch. So when nothing
  matches, or the full list is empty, the published view is null and the row count is 0.
  With the empty term this means an empty list shows no rows.
- The preference key is the number label's whole text, `#` included (`"#007"`), not
  the bare digits.
- `"#%03d"` is modelled for every non-negative id. Ids above 999 print all their digits.
  The exact `#` plus three digits shape is proved for ids up to 999.

## Model

| member | source | states |
|---|---|---|
| PokedexAdapter.Matching | app/src/main/java/edu/harvard/cs50/pokedex/PokedexAdapter.java:129-134 | every kept entry is an entry of the full list whose upper-cased name starts with the upper-cased term; the result is no longer than the list |
| PokedexAdapter.MatchingComplete | app/src/main/java/edu/harvard/cs50/pokedex/PokedexAdapter.java:129-134 | every entry of the full list that matches the term appears in the filter result |
| PokedexAdapter.MatchingIsSubsequence | app/src/main/java/edu/harvard/cs50/pokedex/PokedexAdapter.java:127-135 | the filter result is an order-preserving subsequence of the full list: strictly increasing positions place it inside the list |
| PokedexAdapter.MatchingEmptyTerm | app/src/main/java/edu/harvard/cs50/pokedex/PokedexAdapter.java:130-133 | with the empty term the matching entries are the whole list, same length and order |
| PokedexAdapter.FilterResultsOf | app/src/main/java/edu/harvard/cs50/pokedex/PokedexAdapter.java:126-137 | `values` is null exactly when no entry matches, with count 0; otherwise it holds the matches and count is their number |
| PokedexAdapter.PerformFiltering | app/src/main/java/edu/harvard/cs50/pokedex/PokedexAdapter.java:126-137 | the one-pass loop, with `values` assigned only on a match, returns exactly the results described above |
| PokedexAdapter.Filter | app/src/main/java/edu/harvard/cs50/pokedex/PokedexAdapter.java:126-145 | a filter pass leaves the full list unchanged, and the row count equals the number of matching entries |
| PokedexAdapter.FilterRows | app/src/main/java/edu/harvard/cs50/pokedex/PokedexAdapter.java:141-145 | after publishing, the view is the matching entries or null, and null only when nothing matched; the row count is the number of matches |
| PokedexAdapter.NoMatchLeavesNull | app/src/main/java/edu/harvard/cs50/pokedex/PokedexAdapter.java:128-136 | when no entry matches, `filtered` becomes null and `getItemCount` returns 0 |
| PokedexAdapter.EmptyTermShowsAll | app/src/main/java/edu/harvard/cs50/pokedex/PokedexAdapter.java:130-133 | on a non-empty list the empty term publishes a list equal to the full list, one row per entry |
| PokedexAdapter.EmptyListLeavesNull | app/src/main/java/edu/harvard/cs50/pokedex/PokedexAdapter.java:128-173 | over an empty full list any term, the empty one included, leaves the view null and 0 rows |
| PokedexAdapter.MatchPositionAt | app/src/main/java/edu/harvard/cs50/pokedex/PokedexAdapter.java:129-134 | a position of the full list is kept by the filter exactly when the entry there matches, so duplicates are kept once per occurrence |
| PokedexAdapter.PublishResults | app/src/main/java/edu/harvard/cs50/pokedex/PokedexAdapter.java:141-145 | the filtered view becomes `results.values`, null included, and the full list is untouched |
| PokedexAdapter.ItemCount | app/src/main/java/edu/harvard/cs50/pokedex/PokedexAdapter.java:166-174 | a null view counts 0 rows, otherwise one row per element of the view |
| PokedexAdapter.Initial | app/src/main/java/edu/harvard/cs50/pokedex/PokedexAdapter.java:38-40 | a new adapter has an empty full list and no rows |
| PokedexAdapter.LoadPokemon | app/src/main/java/edu/harvard/cs50/pokedex/PokedexAdapter.java:61-92 | a successful load appends one entry per result in result order, with the name capitalised and the URL kept; the earlier entries stay; the view becomes the full list; a failed request changes nothing |
| PokedexAdapter.LoadThenClearSearch | app/src/main/java/edu/harvard/cs50/pokedex/PokedexAdapter.java:61-92 | after a load into a fresh adapter and an empty-term filter, the row count is the number of results, or 0 when the load failed or had no results |
| PokedexAdapter.DisplayNameMatchesRawName | app/src/main/java/edu/harvard/cs50/pokedex/PokedexAdapter.java:73 | the capitalised display name matches a term exactly when the raw API name does |
| Ascii.Capitalize | app/src/main/java/edu/harvard/cs50/pokedex/PokedexAdapter.java:73 | a display name has the raw name's length; its first character is the upper-cased first character of the raw name; the rest is unchanged |
| Ascii.Upper | app/src/main/java/edu/harvard/cs50/pokedex/PokedexAdapter.java:130 | upper-casing keeps the length, maps each character through ASCII upper-casing and leaves no lower-case letter |
| Ascii.UpperCapitalize | app/src/main/java/edu/harvard/cs50/pokedex/PokedexAdapter.java:73 | upper-casing a capitalised name gives the same string as upper-casing the raw name |
| Ascii.UpperIdempotent | app/src/main/java/edu/harvard/cs50/pokedex/PokedexAdapter.java:130 | upper-casing twice is upper-casing once |
| Ascii.CapitalizeIdempotent | app/src/main/java/edu/harvard/cs50/pokedex/PokedexAdapter.java:73 | capitalising a display name again changes nothing |
| NumberFormat.FormatNumber | app/src/main/java/edu/harvard/cs50/pokedex/PokemonActivity.java:96 | the label is `#` and at least three decimal digits, exactly three when the id is at most 999 |
| NumberFormat.FormatParseRoundTrip | app/src/main/java/edu/harvard/cs50/pokedex/PokemonActivity.java:96 | reading the digits of a label gives back the id |
| NumberFormat.ParseFormatRoundTrip | app/src/main/java/edu/harvard/cs50/pokedex/PokemonActivity.java:96 | every `#` plus three digits is the label of the number those digits spell |
| NumberFormat.FormatInjective | app/src/main/java/edu/harvard/cs50/pokedex/PokemonActivity.java:96-99 | distinct ids get distinct labels, so they get distinct preference keys |
| NumberFormat.ThreeDigitLabel | app/src/main/java/edu/harvard/cs50/pokedex/PokemonActivity.java:96 | for ids up to 999 the label is `#` followed by the hundreds, tens and units digits |
| NumberFormat.LabelExamples | app/src/main/java/edu/harvard/cs50/pokedex/PokemonActivity.java:96 | id 7 is shown as `#007` and id 150 as `#150` |
| PokemonActivity.FoldTypes | app/src/main/java/edu/harvard/cs50/pokedex/PokemonActivity.java:103-114 | each label ends as the name of the last entry with its slot (1 primary, 2 secondary), or keeps its start value when no entry has that slot |
| PokemonActivity.SingleTypeLeavesSecondaryBlank | app/src/main/java/edu/harvard/cs50/pokedex/PokemonActivity.java:80-81 | from blank labels, a list with only a slot-1 entry sets the primary label and leaves the secondary one blank |
| PokemonActivity.OtherSlotIgnored | app/src/main/java/edu/harvard/cs50/pokedex/PokemonActivity.java:109-113 | an entry whose slot is neither 1 nor 2 changes neither label |
| PokemonActivity.LaterSlotOverwrites | app/src/main/java/edu/harvard/cs50/pokedex/PokemonActivity.java:104-113 | when two entries share a slot, the later one's name is shown |
| PokemonActivity.Load | app/src/main/java/edu/harvard/cs50/pokedex/PokemonActivity.java:78-130 | both type labels start blank; on success the number label reads back as the id, the flag is the stored value under that label or false when absent, the button shows release exactly when caught, and the type labels follow the slots; on failure only the blanking happens; the store is never written |
| PokemonActivity.LoadIsConsistent | app/src/main/java/edu/harvard/cs50/pokedex/PokemonActivity.java:96-100 | after a load the flag equals the stored flag under the number label and the button label matches it |
| PokemonActivity.FirstFlavorText | app/src/main/java/edu/harvard/cs50/pokedex/PokemonActivity.java:145-146 | the first entry's text is picked, and an empty list is a JSON error |
| PokemonActivity.LoadDescription | app/src/main/java/edu/harvard/cs50/pokedex/PokemonActivity.java:138-160 | the description becomes the first flavor text; a failed request or an empty list leaves the screen unchanged; no other field ever changes |
| Preferences.GetBoolean | app/src/main/java/edu/harvard/cs50/pokedex/PokemonActivity.java:99 | a stored key reads as its stored flag, a missing key reads as the given default |
| PokemonActivity.SaveState | app/src/main/java/edu/harvard/cs50/pokedex/PokemonActivity.java:179-183 | the key is present in the store and holds the written value, `false` included; every other key reads back as before |
| Preferences.PutBoolean | app/src/main/java/edu/harvard/cs50/pokedex/PokemonActivity.java:181 | the written key is added to the store's keys with the new value; the other entries keep their values |
| PokemonActivity.ButtonText | app/src/main/java/edu/harvard/cs50/pokedex/PokemonActivity.java:190-196 | the release label exactly when the flag is true, the catch label otherwise |
| PokemonActivity.ToggleCatch | app/src/main/java/edu/harvard/cs50/pokedex/PokemonActivity.java:167-171 | the flag is negated and stored under the current number label (the key is present afterwards, `false` included), the button matches it, other keys read as before, and no other field changes |
| PokemonActivity.ToggleTwice | app/src/main/java/edu/harvard/cs50/pokedex/PokemonActivity.java:167-171 | toggling twice restores the flag; from a consistent screen it restores the stored flag, and the whole screen when the key was already stored |
| PokemonActivity.ToggleLeavesOtherEntries | app/src/main/java/edu/harvard/cs50/pokedex/PokemonActivity.java:96-99 | toggling one entry after its load never changes the stored flag of an entry with another id |
| PokemonActivity.ToggleSurvivesReload | app/src/main/java/edu/harvard/cs50/pokedex/PokemonActivity.java:99 | reloading the same entry over the store that a toggle wrote shows the toggled flag and label |

## Left out

- Volley requests, their queues and error listeners: network I/O. A response is a decoded record or a `Failure`.
- `DownloadSpriteTask` and bitmap decoding: a background thread and image decoding. The sprite URL is not part of `Detail`.
- The species request URL built from the id (PokemonActivity.java:84, 93): it only feeds a network request.
- Views, `Intent` navigation, `onCreateViewHolder`/`onBindViewHolder` and `notifyDataSetChanged`: UI plumbing.
- `apply()` durability and asynchrony: the store is a map and writes take effect at once.
- The ordering of the detail, description and sprite callbacks, and the filter running off the UI thread: concurrency. Each callback is one step of the model.
- A `JSONException` halfway through a loop, which would leave a partly filled list or partly set fields: responses arrive fully decoded.
- `filtered = pokemon` makes the view alias the full list. The model copies the value instead. Nothing mutates the full list after a load, so the two agree.
- Ascii.Upper: ASCII upper-casing only. Locale-sensitive Unicode upper-casing (which can change a string's length) is not modelled.
- Ascii.Capitalize: the empty raw name is excluded by precondition. There `substring(0, 1)` throws an exception that the callback does not catch.
- PokedexAdapter.LoadPokemon: requires every raw name to be non-empty, for the same reason.
- NumberFormat.FormatNumber: ids are non-negative (`nat`). The `-` sign that `%03d` prints for negative ids is not modelled.
- A null search term passed to the filter is not modelled: the term is a string.
