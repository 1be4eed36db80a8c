/**
 * Champions as the pool and the board see them. The catalog class itself
 * (stats, traits, owner) is not part of this model: a champion here is its
 * name, its cost tier, its star level and its instance id.
 */
module Champions {
  /** A star level; champions start at 1 and only combine upwards. */
  type Level = n: int | 1 <= n witness 1

  datatype Champion = Champion(name: string, cost: int, level: Level, id: int)

  /** `Champion.clone(id, player)`: a copy of a catalog entry carrying a fresh instance id. */
  function Clone(c: Champion, id: int): Champion
  {
    c.(id := id)
  }
}
