/** The app's `SharedPreferences` file, seen as a key to boolean map whose writes take
    effect at once. */
module Preferences {

  type Store = map<string, bool>

  /** `getBoolean(key, default)`. */
  function GetBoolean(store: Store, key: string, default: bool): (r: bool)
    ensures key in store ==> r == store[key]
    ensures key !in store ==> r == default
  {
    if key in store then store[key] else default
  }

  /** `edit().putBoolean(key, value).apply()`: `key` now holds `value`, every other key
      keeps what it had. */
  function PutBoolean(store: Store, key: string, value: bool): (r: Store)
    ensures r.Keys == store.Keys + {key}
    ensures GetBoolean(r, key, false) == value && GetBoolean(r, key, true) == value
    ensures forall k :: k != key && k in store ==> r[k] == store[k]
  {
    store[key := value]
  }
}
