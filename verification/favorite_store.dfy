/** The favourite-override store of store/favoriteStore.ts: a map from dish id
    to the favourite flag the user last chose.  JavaScript object keys are
    strings, and the screens pass dish ids as strings (`String(dish.id)`), so
    the map is keyed by the id text. */
module FavoriteStore {
  import opened Wrappers

  type Overrides = map<string, bool>

  /** The store starts with no overrides. */
  const Initial: Overrides := map[]

  /** `getFavoriteStatus`: the recorded flag, or `undefined`. */
  function Status(s: Overrides, dishId: string): (r: Option<bool>)
    ensures r.Some? <==> dishId in s
    ensures r.Some? ==> r.value == s[dishId]
  {
    if dishId in s then Some(s[dishId]) else None
  }

  /** `updateFavoriteStatus`: records the flag for one dish. */
  function Update(s: Overrides, dishId: string, isFavorite: bool): (r: Overrides)
    ensures Status(r, dishId) == Some(isFavorite)
    ensures forall d :: d != dishId ==> Status(r, d) == Status(s, d)
  {
    s[dishId := isFavorite]
  }

  /** `clearUpdates`: forgets every override. */
  function Clear(s: Overrides): (r: Overrides)
    ensures forall d :: Status(r, d) == None
  {
    map[]
  }

  /** A dish nobody has marked reads as `undefined`. */
  lemma InitialIsEmpty(d: string)
    ensures Status(Initial, d) == None
  {
  }

  /** Only the last write for a dish matters. */
  lemma LastWriteWins(s: Overrides, d: string, a: bool, b: bool)
    ensures Update(Update(s, d, a), d, b) == Update(s, d, b)
  {
  }

  /** Writes for different dishes do not interfere and can be reordered. */
  lemma UpdatesCommute(s: Overrides, d1: string, a: bool, d2: string, b: bool)
    requires d1 != d2
    ensures Update(Update(s, d1, a), d2, b) == Update(Update(s, d2, b), d1, a)
  {
  }
}
