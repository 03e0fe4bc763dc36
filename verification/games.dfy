/** One row of the game catalog, after loading. */
module Games {

  /**
   * A game record. `year` is the release year already derived from the
   * release date; `genres` and `platforms` are comma-space separated lists.
   */
  datatype Game = Game(name: string, rating: real, year: int, genres: string, platforms: string)

  /** What a view shows: a "no data" warning, or a result. */
  datatype Option<T> = None | Some(value: T)
}
