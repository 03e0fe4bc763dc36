/**
 * The genre normalizer (`consolidate_genres` / `map_genres`) and the
 * category universe offered by the genre selector (`broad_genres`).
 */
module Genres {
  import opened Text
  import opened Order
  import opened Games

  /** The fixed table from raw sub-genres to broad categories. */
  const GenreMapping: map<string, string> := map[
    "Simulator" := "Simulation",
    "Strategy" := "Strategy",
    "Hack and slash/Beat 'em up" := "Action",
    "Indie" := "Indie",
    "Role-playing (RPG)" := "RPG",
    "Sport" := "Sports & Racing",
    "Platform" := "Adventure",
    "Adventure" := "Adventure",
    "Shooter" := "Action",
    "Racing" := "Sports & Racing",
    "Card & Board Game" := "Puzzle & Casual",
    "Point-and-click" := "Adventure",
    "Puzzle" := "Puzzle & Casual",
    "Real Time Strategy (RTS)" := "Strategy",
    "Tactical" := "Action",
    "Visual Novel" := "RPG",
    "Quiz/Trivia" := "Puzzle & Casual",
    "Arcade" := "Arcade",
    "Turn-based strategy (TBS)" := "Strategy",
    "Music" := "Arcade",
    "Fighting" := "Action",
    "Pinball" := "Simulation",
    "MOBA" := "RPG"
  ]

  /** The broad categories the table maps to. */
  const Categories: set<string> := {
    "Simulation", "Strategy", "Action", "Indie", "RPG",
    "Sports & Racing", "Adventure", "Puzzle & Casual", "Arcade"
  }

  /**
   * `genre_mapping.get(t, t)`: a listed sub-genre becomes its broad
   * category; any other token is kept as it is.
   */
  function MapGenre(t: string): (c: string)
    ensures t in GenreMapping ==> c in Categories
    ensures t !in GenreMapping ==> c == t
  {
    MappingValues();
    if t in GenreMapping then GenreMapping[t] else t
  }

  /**
   * The categories of a raw genre string: each token mapped, as a set.
   * Every genre string, even the empty one, yields a category.
   */
  function GenreSet(g: string): (cs: set<string>)
    ensures cs != {}
  {
    var cs := set t | t in Split(g) :: MapGenre(t);
    assert MapGenre(Split(g)[0]) in cs;
    cs
  }

  /** Every table value is one of the broad categories, none holding a separator. */
  lemma MappingValues()
    ensures forall k :: k in GenreMapping ==> GenreMapping[k] in Categories
    ensures forall c :: c in Categories ==> NoSep(c)
  {
  }

  /**
   * Every table value either is not a key or is a key mapped to itself
   * (Strategy, Indie, Adventure, Arcade).
   */
  lemma MappingValuesFixed()
    ensures forall k :: k in GenreMapping ==>
              GenreMapping[k] !in GenreMapping || GenreMapping[GenreMapping[k]] == GenreMapping[k]
  {
    MappingValues();
    forall k | k in GenreMapping
      ensures GenreMapping[k] !in GenreMapping || GenreMapping[GenreMapping[k]] == GenreMapping[k]
    {
      CategoryFixed(GenreMapping[k]);
    }
  }

  /** A category is either not a key of the table or a key mapped to itself. */
  lemma CategoryFixed(c: string)
    requires c in Categories
    ensures c !in GenreMapping || GenreMapping[c] == c
  {
  }

  /** Mapping a token twice maps it once. */
  lemma MapGenreIdempotent(t: string)
    ensures MapGenre(MapGenre(t)) == MapGenre(t)
  {
    MappingValuesFixed();
  }

  /** No mapped token contains the ", " separator. */
  lemma GenreSetNoSep(g: string)
    ensures forall x :: x in GenreSet(g) ==> NoSep(x)
    ensures GenreSet(g) != {}
  {
    MappingValues();
    assert MapGenre(Split(g)[0]) in GenreSet(g);
  }

  /**
   * `map_genres`: split on ", ", map each token, keep each category once and
   * join with ", " in set iteration order.
   */
  method MapGenres(g: string) returns (r: string)
    ensures NoDups(Split(r))
    ensures forall x :: x in Split(r) <==> exists t :: t in Split(g) && x == MapGenre(t)
    ensures IsJoinOf(r, GenreSet(g))
  {
    GenreSetNoSep(g);
    r := JoinSet(GenreSet(g));
    forall x ensures x in Split(r) <==> x in GenreSet(g) {
      assert x in Split(r) <==> x in Elems(Split(r));
    }
  }

  /**
   * No label is invented: every category in the output is the table's image
   * of some input token, or an input token absent from the table.
   */
  lemma NoInventedLabels(g: string, r: string)
    requires IsJoinOf(r, GenreSet(g))
    ensures forall x :: x in Split(r) ==>
              (x in Categories && exists t :: t in Split(g) && t in GenreMapping && GenreMapping[t] == x)
              || (x in Split(g) && x !in GenreMapping)
  {
    MappingValues();
    forall x | x in Split(r)
      ensures (x in Categories && exists t :: t in Split(g) && t in GenreMapping && GenreMapping[t] == x)
              || (x in Split(g) && x !in GenreMapping)
    {
      assert x in Elems(Split(r));
      var t :| t in Split(g) && x == MapGenre(t);
    }
  }

  /** Nothing is dropped: every input token's category appears in the output. */
  lemma DropsNothing(g: string, r: string)
    requires IsJoinOf(r, GenreSet(g))
    ensures forall t :: t in Split(g) ==> MapGenre(t) in Split(r)
  {
    forall t | t in Split(g) ensures MapGenre(t) in Split(r) {
      assert MapGenre(t) in GenreSet(g);
      assert MapGenre(t) in Elems(Split(r));
    }
  }

  /**
   * Normalizing an already normalized genre string leaves its set of
   * categories unchanged.
   */
  lemma NormalizationIdempotent(g: string, r: string)
    requires IsJoinOf(r, GenreSet(g))
    ensures GenreSet(r) == GenreSet(g)
  {
    forall x | x in GenreSet(r) ensures x in GenreSet(g) {
      var t :| t in Split(r) && x == MapGenre(t);
      assert t in Elems(Split(r));
      var u :| u in Split(g) && t == MapGenre(u);
      MapGenreIdempotent(u);
    }
    forall x | x in GenreSet(g) ensures x in GenreSet(r) {
      var u :| u in Split(g) && x == MapGenre(u);
      MapGenreIdempotent(u);
      assert x in Elems(Split(r));
    }
  }

  /** `n` is `o` with its genre string replaced by its normalized form. */
  predicate GenresNormalized(n: Game, o: Game) {
    n == o.(genres := n.genres) && IsJoinOf(n.genres, GenreSet(o.genres))
  }

  /**
   * `consolidate_genres`: overwrites the genre column in place with the
   * normalized strings; every other column is left as it was.
   */
  method ConsolidateGenres(a: array<Game>)
    modifies a
    ensures forall i :: 0 <= i < a.Length ==> GenresNormalized(a[i], old(a[i]))
  {
    for i := 0 to a.Length
      invariant forall k :: 0 <= k < i ==> GenresNormalized(a[k], old(a[k]))
      invariant forall k :: i <= k < a.Length ==> a[k] == old(a[k])
    {
      var g := MapGenres(a[i].genres);
      a[i] := a[i].(genres := g);
    }
  }

  /**
   * `broad_genres`: every token of the (normalized) genre column, each
   * once, in ascending order.
   */
  function BroadGenres(data: seq<Game>): (r: seq<string>)
    ensures StrictlyAscending(r)
    ensures forall x :: x in r <==> exists i :: 0 <= i < |data| && x in Split(data[i].genres)
  {
    var r := SortedDistinct(AllTokens(data));
    assert forall x :: x in r <==> x in Elems(r);
    r
  }

  /** The tokens of the genre column, record after record. */
  function AllTokens(data: seq<Game>): (ts: seq<string>)
    ensures forall x :: x in ts <==> exists i :: 0 <= i < |data| && x in Split(data[i].genres)
    decreases |data|
  {
    if data == [] then []
    else
      var n := |data| - 1;
      var ts := AllTokens(data[..n]) + Split(data[n].genres);
      assert forall i :: 0 <= i < n ==> data[..n][i] == data[i];
      ts
  }

  /** The ascending listing of the categories is unique, as `sorted(set(...))` is. */
  lemma BroadGenresUnique(data: seq<Game>, xs: seq<string>)
    requires StrictlyAscending(xs)
    requires forall x :: x in xs <==> exists i :: 0 <= i < |data| && x in Split(data[i].genres)
    ensures xs == BroadGenres(data)
  {
    var r := BroadGenres(data);
    assert Elems(xs) == Elems(r);
    AscendingUnique(xs, r);
  }

  /** The raw genre string `"Shooter, Tactical"`. */
  const ShooterTacticalRaw: string := "Shooter" + ", " + "Tactical"

  lemma SplitShooterTactical()
    ensures Split(ShooterTacticalRaw) == ["Shooter", "Tactical"]
  {
    NoCommaNoSep("Shooter");
    NoCommaNoSep("Tactical");
    SplitCons("Shooter", "Tactical");
  }

  lemma ShooterTacticalLookups()
    ensures MapGenre("Shooter") == "Action" && MapGenre("Tactical") == "Action"
  {
  }

  /** The categories of a two-token genre string. */
  lemma GenreSetOfTwo(g: string, a: string, b: string)
    requires Split(g) == [a, b]
    ensures GenreSet(g) == {MapGenre(a), MapGenre(b)}
  {
    var ts := Split(g);
    assert ts[0] == a && ts[1] == b;
    forall x | x in GenreSet(g) ensures x == MapGenre(a) || x == MapGenre(b) {
      var t :| t in ts && x == MapGenre(t);
    }
  }

  /** `"Shooter, Tactical"` normalizes to the single category Action. */
  lemma ShooterTacticalCategories()
    ensures GenreSet(ShooterTacticalRaw) == {"Action"}
  {
    SplitShooterTactical();
    ShooterTacticalLookups();
    GenreSetOfTwo(ShooterTacticalRaw, "Shooter", "Tactical");
  }

  /** ... and the normalized string is exactly `"Action"`. */
  lemma ShooterTactical(r: string)
    requires IsJoinOf(r, GenreSet(ShooterTacticalRaw))
    ensures r == "Action"
  {
    ShooterTacticalCategories();
    SingleJoin(r, "Action");
  }
}
