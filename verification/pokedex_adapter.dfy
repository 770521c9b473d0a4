/** The list screen's adapter: the full list `pokemon`, the filtered view `filtered` that
    the rows are drawn from, the prefix filter and the list load.
    `filtered` is a Java reference that the filter can leave null, hence the `Option`. */
module PokedexAdapter {
  import opened Wrappers
  import opened Ascii

  /** One list entry: the display name and the detail URL. */
  datatype Pokemon = Pokemon(name: string, url: string)

  /** One element of the list response's `results` array, already decoded. */
  datatype ListResult = ListResult(name: string, url: string)

  /** Why the list request delivered no results (the Volley error listener, or a
      `JSONException` for a missing `results` array). Both are only logged. */
  datatype ListError = NetworkError | JsonError

  /** Android's `Filter.FilterResults`: `values` stays null unless it is assigned. */
  datatype FilterResults = FilterResults(values: Option<seq<Pokemon>>, count: nat)

  datatype Adapter = Adapter(pokemon: seq<Pokemon>, filtered: Option<seq<Pokemon>>)

  /** A freshly constructed adapter: both lists are new, empty `ArrayList`s. */
  function Initial(): (a: Adapter)
    ensures a.pokemon == []
    ensures ItemCount(a) == 0
  {
    Adapter([], Some([]))
  }

  /** The filter's test: the upper-cased name starts with the upper-cased search term. */
  predicate Matches(p: Pokemon, term: string)
  {
    StartsWith(Upper(p.name), Upper(term))
  }

  /** The entries of `pokemon` that match `term`, in list order. */
  function Matching(pokemon: seq<Pokemon>, term: string): (r: seq<Pokemon>)
    ensures |r| <= |pokemon|
    ensures forall i :: 0 <= i < |r| ==> Matches(r[i], term) && r[i] in pokemon
  {
    if pokemon == [] then []
    else
      var rest := Matching(pokemon[..|pokemon| - 1], term);
      var last := pokemon[|pokemon| - 1];
      if Matches(last, term) then rest + [last] else rest
  }

  /** Every matching entry of the full list is kept by the filter. */
  lemma {:induction false} MatchingComplete(pokemon: seq<Pokemon>, term: string)
    ensures forall i :: 0 <= i < |pokemon| && Matches(pokemon[i], term) ==> pokemon[i] in Matching(pokemon, term)
  {
    if pokemon != [] {
      var init := pokemon[..|pokemon| - 1];
      MatchingComplete(init, term);
      forall i | 0 <= i < |pokemon| && Matches(pokemon[i], term)
        ensures pokemon[i] in Matching(pokemon, term)
      {
        if i < |pokemon| - 1 {
          assert pokemon[i] == init[i];
        }
      }
    }
  }

  /** `idx` places `xs` inside `ys` in order: `xs[k]` is `ys[idx[k]]` and the positions
      strictly increase. */
  ghost predicate Embedding<T>(xs: seq<T>, ys: seq<T>, idx: seq<int>)
  {
    && |idx| == |xs|
    && (forall k :: 0 <= k < |idx| ==> 0 <= idx[k] < |ys| && xs[k] == ys[idx[k]])
    && (forall k, l :: 0 <= k < l < |idx| ==> idx[k] < idx[l])
  }

  /** The positions in `pokemon` of the entries the filter keeps. */
  ghost function MatchPositions(pokemon: seq<Pokemon>, term: string): (idx: seq<int>)
    ensures Embedding(Matching(pokemon, term), pokemon, idx)
  {
    if pokemon == [] then []
    else
      var init := pokemon[..|pokemon| - 1];
      var rest := MatchPositions(init, term);
      assert forall k :: 0 <= k < |rest| ==> pokemon[rest[k]] == init[rest[k]];
      if Matches(pokemon[|pokemon| - 1], term) then rest + [|pokemon| - 1] else rest
  }

  /** Position `i` is kept by the filter exactly when the entry there matches. */
  lemma {:induction false} MatchPositionAt(pokemon: seq<Pokemon>, term: string, i: int)
    requires 0 <= i < |pokemon|
    ensures Matches(pokemon[i], term) <==> i in MatchPositions(pokemon, term)
    decreases |pokemon|
  {
    var init := pokemon[..|pokemon| - 1];
    var last := |pokemon| - 1;
    var rest := MatchPositions(init, term);
    assert MatchPositions(pokemon, term) == if Matches(pokemon[last], term) then rest + [last] else rest;
    if i < last {
      MatchPositionAt(init, term, i);
      assert pokemon[i] == init[i];
      assert i in rest + [last] <==> i in rest;
    } else {
      assert last !in rest;
    }
  }

  /** The kept positions are exactly the positions whose entry matches, so an entry that
      occurs twice in the full list is kept twice. */
  lemma MatchPositionsExact(pokemon: seq<Pokemon>, term: string)
    ensures forall i :: 0 <= i < |pokemon| ==> (Matches(pokemon[i], term) <==> i in MatchPositions(pokemon, term))
  {
    forall i | 0 <= i < |pokemon|
      ensures Matches(pokemon[i], term) <==> i in MatchPositions(pokemon, term)
    {
      MatchPositionAt(pokemon, term, i);
    }
  }

  /** The filter result is an order-preserving subsequence of the full list. */
  lemma MatchingIsSubsequence(pokemon: seq<Pokemon>, term: string)
    ensures exists idx :: Embedding(Matching(pokemon, term), pokemon, idx)
  {
    var idx := MatchPositions(pokemon, term);
    assert Embedding(Matching(pokemon, term), pokemon, idx);
  }

  /** With an empty search term every entry matches, so the filter keeps the whole list. */
  lemma {:induction false} MatchingEmptyTerm(pokemon: seq<Pokemon>)
    ensures Matching(pokemon, "") == pokemon
  {
    if pokemon != [] {
      MatchingEmptyTerm(pokemon[..|pokemon| - 1]);
      EmptyTermMatchesAll(pokemon[|pokemon| - 1].name);
    }
  }

  /** What `performFiltering` returns. `results.values` is only assigned inside the
      matching branch, so it stays null when nothing matches, the empty list included. */
  function FilterResultsOf(pokemon: seq<Pokemon>, term: string): (r: FilterResults)
    ensures r.values.None? <==> forall i :: 0 <= i < |pokemon| ==> !Matches(pokemon[i], term)
    ensures r.values.None? ==> r.count == 0
    ensures r.values.Some? ==> r.values.value == Matching(pokemon, term) && r.count == |r.values.value|
  {
    MatchingComplete(pokemon, term);
    var m := Matching(pokemon, term);
    assert m != [] ==> m[0] in pokemon && Matches(m[0], term);
    if m == [] then FilterResults(None, 0) else FilterResults(Some(m), |m|)
  }

  /** `performFiltering` as the Java method is written: one pass over the full list. Java stores
      the growing `filteredPokemon` list itself in `results.values`, so the values seen at
      the end are every match; the model re-assigns the current list after each append. */
  method PerformFiltering(pokemon: seq<Pokemon>, constraint: string) returns (results: FilterResults)
    ensures results == FilterResultsOf(pokemon, constraint)
  {
    var filteredPokemon: seq<Pokemon> := [];
    results := FilterResults(None, 0);
    for i := 0 to |pokemon|
      invariant filteredPokemon == Matching(pokemon[..i], constraint)
      invariant results == if filteredPokemon == [] then FilterResults(None, 0)
                           else FilterResults(Some(filteredPokemon), |filteredPokemon|)
    {
      var name := pokemon[i];
      assert pokemon[..i + 1][..i] == pokemon[..i];
      if StartsWith(Upper(name.name), Upper(constraint)) {
        filteredPokemon := filteredPokemon + [name];
        results := FilterResults(Some(filteredPokemon), |filteredPokemon|);
      }
    }
    assert pokemon[..|pokemon|] == pokemon;
  }

  /** `publishResults`: the filtered view becomes `results.values`, null or not. */
  function PublishResults(a: Adapter, results: FilterResults): (r: Adapter)
    ensures r.pokemon == a.pokemon
    ensures r.filtered == results.values
  {
    a.(filtered := results.values)
  }

  /** `getItemCount`: the size of the filtered view, or 0 when it is null. */
  function ItemCount(a: Adapter): (n: nat)
    ensures a.filtered.None? ==> n == 0
    ensures a.filtered.Some? ==> n == |a.filtered.value|
  {
    match a.filtered
    case None => 0
    case Some(f) => |f|
  }

  /** One filter pass: `performFiltering` followed by `publishResults`. */
  function Filter(a: Adapter, term: string): (r: Adapter)
    ensures r.pokemon == a.pokemon
    ensures ItemCount(r) == |Matching(a.pokemon, term)|
  {
    PublishResults(a, FilterResultsOf(a.pokemon, term))
  }

  /** After any filter pass the rows are exactly the matching entries, or there are none. */
  lemma FilterRows(a: Adapter, term: string)
    ensures Filter(a, term).filtered.Some? ==> Filter(a, term).filtered.value == Matching(a.pokemon, term)
    ensures Filter(a, term).filtered.None? ==> Matching(a.pokemon, term) == []
    ensures ItemCount(Filter(a, term)) == |Matching(a.pokemon, term)|
  {
  }

  /** When no entry matches, the filtered view is left null and the row count falls back to 0. */
  lemma NoMatchLeavesNull(a: Adapter, term: string)
    requires forall i :: 0 <= i < |a.pokemon| ==> !Matches(a.pokemon[i], term)
    ensures Filter(a, term).filtered == None
    ensures ItemCount(Filter(a, term)) == 0
  {
  }

  /** An empty search term over a non-empty list restores the full list, same order. */
  lemma EmptyTermShowsAll(a: Adapter)
    requires |a.pokemon| > 0
    ensures Filter(a, "").filtered == Some(a.pokemon)
    ensures ItemCount(Filter(a, "")) == |a.pokemon|
  {
    MatchingEmptyTerm(a.pokemon);
  }

  /** Over an empty full list even the empty term leaves the filtered view null. */
  lemma EmptyListLeavesNull(a: Adapter, term: string)
    requires a.pokemon == []
    ensures Filter(a, term).filtered == None
    ensures ItemCount(Filter(a, term)) == 0
  {
  }

  /** The success callback of `loadPokemon`: one entry per result, appended in result
      order to the full list, with the name capitalised and the URL kept; then the
      filtered view is the full list. The error paths only log. */
  method LoadPokemon(a: Adapter, response: Result<seq<ListResult>, ListError>) returns (r: Adapter)
    requires response.Success? ==> forall i :: 0 <= i < |response.value| ==> |response.value[i].name| > 0
    ensures response.Failure? ==> r == a
    ensures response.Success? ==> |r.pokemon| == |a.pokemon| + |response.value|
    ensures response.Success? ==> r.pokemon[..|a.pokemon|] == a.pokemon
    ensures response.Success? ==> forall i :: 0 <= i < |response.value| ==>
              r.pokemon[|a.pokemon| + i] == Pokemon(Capitalize(response.value[i].name), response.value[i].url)
    ensures response.Success? ==> r.filtered == Some(r.pokemon)
  {
    if response.Failure? {
      return a;
    }
    var results := response.value;
    var pokemon := a.pokemon;
    for i := 0 to |results|
      invariant |pokemon| == |a.pokemon| + i
      invariant pokemon[..|a.pokemon|] == a.pokemon
      invariant forall j :: 0 <= j < i ==>
                  pokemon[|a.pokemon| + j] == Pokemon(Capitalize(results[j].name), results[j].url)
    {
      var result := results[i];
      pokemon := pokemon + [Pokemon(Capitalize(result.name), result.url)];
    }
    r := Adapter(pokemon, Some(pokemon));
  }

  /** Searching the capitalised display names finds exactly the entries whose raw API
      names match the term. */
  lemma DisplayNameMatchesRawName(result: ListResult, term: string)
    requires |result.name| > 0
    ensures Matches(Pokemon(Capitalize(result.name), result.url), term) <==> StartsWith(Upper(result.name), Upper(term))
  {
    UpperCapitalize(result.name);
  }

  /** A list load from a fresh adapter followed by an empty-term filter shows one row per
      result; a failed load leaves no rows. */
  method LoadThenClearSearch(response: Result<seq<ListResult>, ListError>) returns (rows: nat)
    requires response.Success? ==> forall i :: 0 <= i < |response.value| ==> |response.value[i].name| > 0
    ensures response.Success? && |response.value| > 0 ==> rows == |response.value|
    ensures response.Failure? || response.value == [] ==> rows == 0
  {
    var a := LoadPokemon(Initial(), response);
    if |a.pokemon| > 0 {
      EmptyTermShowsAll(a);
    }
    rows := ItemCount(Filter(a, ""));
  }
}
