/** The detail screen: the fields filled from one entry's record, the type labels picked
    by slot, the description, and the caught flag kept in the preference store under
    the number label's text. */
module PokemonActivity {
  import opened Wrappers
  import opened NumberFormat
  import opened Preferences

  /** One element of the record's `types` array: `slot` and `type.name`. */
  datatype TypeEntry = TypeEntry(slot: int, name: string)

  /** The decoded detail record (the sprite URL is not part of this model). */
  datatype Detail = Detail(id: nat, name: string, types: seq<TypeEntry>)

  /** One element of the species record's `flavor_text_entries` array. */
  datatype FlavorTextEntry = FlavorTextEntry(flavorText: string)

  /** Why a request delivered no usable record: the Volley error listener, or a
      `JSONException` raised while reading the response. Both are only logged. */
  datatype FetchError = NetworkError | JsonError

  /** The two string resources the catch button shows. */
  datatype ButtonLabel = CatchLabel | ReleaseLabel

  datatype TypeLabels = TypeLabels(type1: string, type2: string)

  /** The screen's state: the text of each view, the `catched` field and the store. */
  datatype Screen = Screen(
    name: string,
    number: string,
    types: TypeLabels,
    caught: bool,
    button: ButtonLabel,
    description: string,
    store: Store)

  /** `setButtonText`: the release label exactly when the entry is caught. */
  function ButtonText(caught: bool): (r: ButtonLabel)
    ensures r == ReleaseLabel <==> caught
    ensures r == CatchLabel <==> !caught
  {
    if caught then ReleaseLabel else CatchLabel
  }

  /** One step of the types loop: slot 1 sets the primary label, slot 2 the secondary,
      any other slot is skipped. */
  function ApplyType(labels: TypeLabels, e: TypeEntry): (r: TypeLabels)
  {
    if e.slot == 1 then labels.(type1 := e.name)
    else if e.slot == 2 then labels.(type2 := e.name)
    else labels
  }

  /** `i` is the last position of `entries` that declares `slot`. */
  ghost predicate LastInSlot(entries: seq<TypeEntry>, slot: int, i: int)
  {
    && 0 <= i < |entries|
    && entries[i].slot == slot
    && forall j :: i < j < |entries| ==> entries[j].slot != slot
  }

  /** The label a slot ends with after the loop: the name of the last entry that
      declares it, or `start` when none does. */
  ghost predicate SlotResult(entries: seq<TypeEntry>, slot: int, start: string, shown: string)
  {
    && ((forall j :: 0 <= j < |entries| ==> entries[j].slot != slot) ==> shown == start)
    && (forall i :: LastInSlot(entries, slot, i) ==> shown == entries[i].name)
  }

  /** The types loop of `load`, entry by entry in array order. */
  function FoldTypes(start: TypeLabels, entries: seq<TypeEntry>): (r: TypeLabels)
    ensures SlotResult(entries, 1, start.type1, r.type1)
    ensures SlotResult(entries, 2, start.type2, r.type2)
  {
    if entries == [] then start
    else
      var init := entries[..|entries| - 1];
      var rest := FoldTypes(start, init);
      assert forall i, s :: LastInSlot(entries, s, i) && i < |entries| - 1 ==> LastInSlot(init, s, i);
      ApplyType(rest, entries[|entries| - 1])
  }

  /** Both labels start blank, so a type list with only a slot-1 entry leaves the
      secondary label blank. */
  lemma SingleTypeLeavesSecondaryBlank(t: string)
    ensures FoldTypes(TypeLabels("", ""), [TypeEntry(1, t)]) == TypeLabels(t, "")
  {
  }

  /** An entry whose slot is neither 1 nor 2 changes neither label. */
  lemma OtherSlotIgnored(start: TypeLabels, entries: seq<TypeEntry>, e: TypeEntry)
    requires e.slot != 1 && e.slot != 2
    ensures FoldTypes(start, entries + [e]) == FoldTypes(start, entries)
  {
  }

  /** Of two entries for the same slot, the later one wins. */
  lemma LaterSlotOverwrites(start: TypeLabels, entries: seq<TypeEntry>, a: string, b: string)
    ensures FoldTypes(start, entries + [TypeEntry(1, a), TypeEntry(1, b)]).type1 == b
    ensures FoldTypes(start, entries + [TypeEntry(2, a), TypeEntry(2, b)]).type2 == b
  {
  }

  /** `load` and its success callback. The type labels are blanked before the request is
      sent; on success the name, the number label, the caught flag read under that label
      (default false), the button label and the type labels are set. */
  function Load(s: Screen, response: Result<Detail, FetchError>): (r: Screen)
    ensures r.store == s.store
    ensures r.description == s.description
    ensures response.Failure? ==> r == s.(types := TypeLabels("", ""))
    ensures response.Success? ==> r.name == response.value.name
    ensures response.Success? ==> r.number == FormatNumber(response.value.id)
    ensures response.Success? ==> ParseNumber(r.number) == Some(response.value.id)
    ensures response.Success? && response.value.id <= 999 ==> |r.number| == 4
    ensures response.Success? ==> r.caught == (r.number in s.store && s.store[r.number])
    ensures response.Success? ==> (r.button == ReleaseLabel <==> r.caught)
    ensures response.Success? ==> SlotResult(response.value.types, 1, "", r.types.type1)
    ensures response.Success? ==> SlotResult(response.value.types, 2, "", r.types.type2)
  {
    var blank := s.(types := TypeLabels("", ""));
    match response
    case Failure(_) => blank
    case Success(d) =>
      FormatParseRoundTrip(d.id);
      var number := FormatNumber(d.id);
      var caught := GetBoolean(s.store, number, false);
      blank.(name := d.name, number := number, caught := caught, button := ButtonText(caught),
             types := FoldTypes(blank.types, d.types))
  }

  /** The first element of `flavor_text_entries`; `getJSONObject(0)` on an empty array
      raises a `JSONException`. */
  function FirstFlavorText(entries: seq<FlavorTextEntry>): (r: Result<string, FetchError>)
    ensures r.Success? <==> |entries| > 0
    ensures r.Success? ==> r.value == entries[0].flavorText
  {
    if |entries| == 0 then Failure(JsonError) else Success(entries[0].flavorText)
  }

  /** `loadDescription`'s callback: the description becomes the first flavor text; a
      failed request or an empty list leaves it unchanged. Nothing else changes. */
  function LoadDescription(s: Screen, response: Result<seq<FlavorTextEntry>, FetchError>): (r: Screen)
    ensures response.Success? && |response.value| > 0 ==> r.description == response.value[0].flavorText
    ensures response.Failure? || response.value == [] ==> r == s
    ensures r.(description := s.description) == s
  {
    match response
    case Failure(_) => s
    case Success(entries) =>
      match FirstFlavorText(entries)
      case Failure(_) => s
      case Success(text) => s.(description := text)
  }

  /** `saveState`: the flag under `key` is `value`; every other key is untouched. */
  function SaveState(store: Store, key: string, value: bool): (r: Store)
    ensures key in r && r[key] == value
    ensures GetBoolean(r, key, false) == value
    ensures forall k, d :: k != key ==> GetBoolean(r, k, d) == GetBoolean(store, k, d)
  {
    PutBoolean(store, key, value)
  }

  /** The caught flag, the stored flag under the number label and the button label agree. */
  ghost predicate Consistent(s: Screen)
  {
    && s.caught == GetBoolean(s.store, s.number, false)
    && s.button == ButtonText(s.caught)
  }

  /** `toggleCatch`: negate the flag, store it under the current number label, relabel. */
  function ToggleCatch(s: Screen): (r: Screen)
    ensures r.caught == !s.caught
    ensures s.number in r.store && r.store[s.number] == r.caught
    ensures Consistent(r)
    ensures forall k, d :: k != s.number ==> GetBoolean(r.store, k, d) == GetBoolean(s.store, k, d)
    ensures r.(caught := s.caught, button := s.button, store := s.store) == s
  {
    var caught := !s.caught;
    s.(caught := caught, store := SaveState(s.store, s.number, caught), button := ButtonText(caught))
  }

  /** A successful load leaves the screen consistent. */
  lemma LoadIsConsistent(s: Screen, d: Detail)
    ensures Consistent(Load(s, Success(d)))
  {
  }

  /** Toggling twice restores the flag and the label; from a consistent screen it also
      restores the stored flag, and the store itself when the key was already present. */
  lemma ToggleTwice(s: Screen)
    ensures ToggleCatch(ToggleCatch(s)).caught == s.caught
    ensures Consistent(s) ==> ToggleCatch(ToggleCatch(s)) == s.(store := SaveState(s.store, s.number, s.caught))
    ensures Consistent(s) ==> GetBoolean(ToggleCatch(ToggleCatch(s)).store, s.number, false) == GetBoolean(s.store, s.number, false)
    ensures Consistent(s) && s.number in s.store ==> ToggleCatch(ToggleCatch(s)) == s
  {
  }

  /** Toggling one entry never changes the stored flag of another: their number labels,
      and so their keys, differ. */
  lemma ToggleLeavesOtherEntries(s: Screen, d: Detail, other: nat)
    requires other != d.id
    ensures GetBoolean(ToggleCatch(Load(s, Success(d))).store, FormatNumber(other), false)
         == GetBoolean(s.store, FormatNumber(other), false)
  {
    FormatInjective(d.id, other);
  }

  /** The flag survives leaving the screen: a later load of the same entry, over the
      store the toggle wrote, shows the toggled flag and the matching label. */
  lemma ToggleSurvivesReload(s: Screen, d: Detail, later: Screen)
    ensures var t := ToggleCatch(Load(s, Success(d)));
            var r := Load(later.(store := t.store), Success(d));
            r.caught == t.caught && r.caught == !Load(s, Success(d)).caught && r.button == t.button
  {
  }
}
