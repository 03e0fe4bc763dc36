/**
 * The two row filters of the dashboard and the top-rated selector of the
 * "Top-Rated Games by Genre" tab: `df[df['genres'].str.contains(label,
 * case=False)]`, `df[(df['year'] >= lo) & (df['year'] <= hi)]` and
 * `nlargest(10, 'rating')`.
 */
module Filters {
  import opened Text
  import opened Seqs
  import opened Games
  import Genres

  /** How many rows the top-rated view shows. */
  const TopCount: nat := 10

  /**
   * The year-range mask: `lo <= year <= hi`, both bounds inclusive, so a
   * one-year range selects exactly that year and a reversed range nothing.
   */
  function InYears(lo: int, hi: int): (m: Game -> bool)
    ensures lo == hi ==> forall g :: m(g) <==> g.year == lo
    ensures lo > hi ==> forall g :: !m(g)
  {
    (g: Game) => lo <= g.year <= hi
  }

  /** Year filter: the records released in `[lo, hi]`, in table order. */
  function YearFilter(data: seq<Game>, lo: int, hi: int): (r: seq<Game>)
    ensures forall g :: g in r <==> g in data && lo <= g.year <= hi
    ensures r == [] <==> forall g :: g in data ==> !(lo <= g.year <= hi)
    ensures lo > hi ==> r == []
  {
    var r := Keep(data, InYears(lo, hi));
    KeepMembers(data, InYears(lo, hi));
    assert r != [] ==> r[0] in r;
    r
  }

  /**
   * The year filter keeps exactly the records in range, each as often as
   * it occurs, in their original relative order.
   */
  lemma YearFilterOrder(data: seq<Game>, lo: int, hi: int)
    ensures var idx := KeptIndices(data, InYears(lo, hi));
            && IncreasingIndices(idx, |data|)
            && (forall i :: i in idx <==> 0 <= i < |data| && lo <= data[i].year <= hi)
            && |YearFilter(data, lo, hi)| == |idx|
            && (forall k :: 0 <= k < |idx| ==> YearFilter(data, lo, hi)[k] == data[idx[k]])
    ensures forall g :: multiset(YearFilter(data, lo, hi))[g] ==
                        if lo <= g.year <= hi then multiset(data)[g] else 0
  {
    KeepOrder(data, InYears(lo, hi));
    forall g ensures multiset(YearFilter(data, lo, hi))[g] ==
                     if lo <= g.year <= hi then multiset(data)[g] else 0 {
      KeepMultiplicity(data, InYears(lo, hi), g);
    }
  }

  /**
   * The genre mask: the genre string contains `category`, ignoring case.
   * An exact occurrence always matches, and the empty category matches
   * every record.
   */
  function MatchesGenre(category: string): (m: Game -> bool)
    ensures forall g: Game :: Contains(g.genres, category) ==> m(g)
    ensures category == [] ==> forall g :: m(g)
  {
    (g: Game) => ContainsIgnoreCase(g.genres, category)
  }

  /** Genre filter: the records whose genre string contains `category`. */
  function GenreFilter(data: seq<Game>, category: string): (r: seq<Game>)
    ensures forall g :: g in r <==> g in data && ContainsIgnoreCase(g.genres, category)
    ensures |r| <= |data|
  {
    KeepMembers(data, MatchesGenre(category));
    Keep(data, MatchesGenre(category))
  }

  /** The genre filter ignores the case of the selected category. */
  lemma GenreFilterIgnoresCase(data: seq<Game>, category: string)
    ensures GenreFilter(data, Lower(category)) == GenreFilter(data, category)
  {
    forall g | g in data
      ensures MatchesGenre(Lower(category))(g) == MatchesGenre(category)(g)
    {
      ContainsIgnoreCaseLower(g.genres, category);
    }
    KeepSame(data, MatchesGenre(Lower(category)), MatchesGenre(category));
  }

  /**
   * The genre filter keeps exactly the matching records, each as often as
   * it occurs, in their original relative order.
   */
  lemma GenreFilterOrder(data: seq<Game>, category: string)
    ensures var idx := KeptIndices(data, MatchesGenre(category));
            && IncreasingIndices(idx, |data|)
            && (forall i :: i in idx <==> 0 <= i < |data| && ContainsIgnoreCase(data[i].genres, category))
            && |GenreFilter(data, category)| == |idx|
            && (forall k :: 0 <= k < |idx| ==> GenreFilter(data, category)[k] == data[idx[k]])
    ensures forall g :: multiset(GenreFilter(data, category))[g] ==
                        if ContainsIgnoreCase(g.genres, category) then multiset(data)[g] else 0
  {
    KeepOrder(data, MatchesGenre(category));
    forall g ensures multiset(GenreFilter(data, category))[g] ==
                     if ContainsIgnoreCase(g.genres, category) then multiset(data)[g] else 0 {
      KeepMultiplicity(data, MatchesGenre(category), g);
    }
  }

  /** Ratings never increase along `s`. */
  predicate NonIncreasing(s: seq<Game>) {
    forall i, j :: 0 <= i < j < |s| ==> s[i].rating >= s[j].rating
  }

  /** Inserts `g` before the first record rated no higher than it. */
  function InsertByRating(g: Game, s: seq<Game>): (r: seq<Game>)
    requires NonIncreasing(s)
    ensures NonIncreasing(r)
    ensures multiset(r) == multiset(s) + multiset{g}
    decreases |s|
  {
    if s == [] || g.rating >= s[0].rating then
      ConsNonIncreasing(g, s);
      [g] + s
    else
      var t := InsertByRating(g, s[1..]);
      HeadBound(s);
      ConsNonIncreasing(s[0], t);
      ConsMultiset(s, t, g);
      [s[0]] + t
  }

  /** Putting back the head of `s` in front of `t`, which is its tail plus `g`, gives `s` plus `g`. */
  lemma ConsMultiset<T>(s: seq<T>, t: seq<T>, g: T)
    requires s != [] && multiset(t) == multiset(s[1..]) + multiset{g}
    ensures multiset([s[0]] + t) == multiset(s) + multiset{g}
  {
    assert s == [s[0]] + s[1..];
  }

  /** The first record of a sequence sorted by rating is rated at least as high as the rest. */
  lemma HeadBound(s: seq<Game>)
    requires NonIncreasing(s) && s != []
    ensures forall x :: x in multiset(s[1..]) ==> x.rating <= s[0].rating
  {
    forall x | x in multiset(s[1..]) ensures x.rating <= s[0].rating {
      var k :| 0 <= k < |s[1..]| && s[1..][k] == x;
      assert s[k + 1] == x;
    }
  }

  /** A record rated at least as high as all of a sorted sequence can go in front of it. */
  lemma ConsNonIncreasing(x: Game, t: seq<Game>)
    requires NonIncreasing(t)
    requires forall y :: y in multiset(t) ==> y.rating <= x.rating
    ensures NonIncreasing([x] + t)
  {
    forall i, j | 0 <= i < j < |[x] + t| ensures ([x] + t)[i].rating >= ([x] + t)[j].rating {
      if i == 0 {
        assert t[j - 1] in multiset(t);
      }
    }
  }

  /** Stable sort by rating, highest first. */
  function SortByRating(s: seq<Game>): (r: seq<Game>)
    ensures NonIncreasing(r)
    ensures multiset(r) == multiset(s)
    decreases |s|
  {
    if s == [] then []
    else
      assert s == [s[0]] + s[1..];
      InsertByRating(s[0], SortByRating(s[1..]))
  }

  function Min(a: nat, b: nat): nat {
    if a <= b then a else b
  }

  /**
   * `nlargest(n, 'rating')`: `n` records (or all, if fewer) taken from `s`,
   * highest rating first, such that no record left out is rated higher than
   * a record taken.
   */
  function NLargest(s: seq<Game>, n: nat): (r: seq<Game>)
    ensures |r| == Min(n, |s|)
    ensures multiset(r) <= multiset(s)
    ensures NonIncreasing(r)
    ensures forall x, j :: x in multiset(s) - multiset(r) && 0 <= j < |r| ==> x.rating <= r[j].rating
  {
    var sorted := SortByRating(s);
    assert |sorted| == |multiset(sorted)| == |multiset(s)| == |s|;
    var m := Min(n, |s|);
    PrefixDominates(sorted, m);
    sorted[..m]
  }

  /**
   * A prefix of a sequence sorted by rating is sorted, is part of it, and
   * nothing after it is rated higher than anything in it.
   */
  lemma PrefixDominates(sorted: seq<Game>, m: nat)
    requires NonIncreasing(sorted) && m <= |sorted|
    ensures multiset(sorted[..m]) <= multiset(sorted)
    ensures NonIncreasing(sorted[..m])
    ensures forall x, j :: x in multiset(sorted) - multiset(sorted[..m]) && 0 <= j < m ==>
              x.rating <= sorted[..m][j].rating
  {
    var r, rest := sorted[..m], sorted[m..];
    assert sorted == r + rest;
    assert multiset(sorted) == multiset(r) + multiset(rest);
    forall x, j | x in multiset(sorted) - multiset(r) && 0 <= j < m
      ensures x.rating <= r[j].rating
    {
      assert x in rest;
      var k :| 0 <= k < |rest| && rest[k] == x;
      assert sorted[m + k] == x;
    }
  }

  /**
   * The top-rated records of a genre: at most ten, all matching the genre,
   * highest rating first, and no matching record left out is rated higher
   * than one shown.
   */
  function TopRated(data: seq<Game>, category: string): (r: seq<Game>)
    ensures |r| <= TopCount
    ensures |r| == Min(TopCount, |GenreFilter(data, category)|)
    ensures multiset(r) <= multiset(GenreFilter(data, category))
    ensures forall x :: x in r ==> x in data && ContainsIgnoreCase(x.genres, category)
    ensures NonIncreasing(r)
    ensures forall x, j :: x in multiset(GenreFilter(data, category)) - multiset(r) && 0 <= j < |r| ==>
              x.rating <= r[j].rating
  {
    var sub := GenreFilter(data, category);
    var r := NLargest(sub, TopCount);
    assert forall x :: x in r ==> x in sub by {
      forall x | x in r ensures x in sub {
        assert x in multiset(r);
      }
    }
    r
  }

  /**
   * The top-rated tab: a "no data" warning when no record matches the
   * genre, otherwise the top-rated table.
   */
  function GenreView(data: seq<Game>, category: string): (v: Option<seq<Game>>)
    ensures v.None? <==> forall g :: g in data ==> !ContainsIgnoreCase(g.genres, category)
    ensures v.Some? ==> v.value == TopRated(data, category) && v.value != []
  {
    var sub := GenreFilter(data, category);
    assert sub != [] ==> sub[0] in sub;
    if sub == [] then None else Some(TopRated(data, category))
  }

  /** Every string contains itself, so a category always matches its own name. */
  lemma ContainsSelf(s: string)
    ensures Contains(s, s)
  {
    assert OccursAt(s, s, 0);
  }

  /**
   * A record whose raw genres are `"Shooter, Tactical"` is shown under the
   * Action category once normalized.
   */
  lemma ActionScenario(data: seq<Game>, g: Game)
    requires g in data
    requires IsJoinOf(g.genres, Genres.GenreSet(Genres.ShooterTacticalRaw))
    ensures g.genres == "Action"
    ensures g in GenreFilter(data, "Action")
  {
    Genres.ShooterTactical(g.genres);
    ContainsSelf(Lower("Action"));
  }
}
