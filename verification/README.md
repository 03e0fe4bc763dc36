# Game Insights dashboard — data transformations

This project models the data logic of a Streamlit dashboard over a video-game catalog, `main.py`. Each game record carries a name, a rating, a release year, a comma-space separated genre list and a comma-space separated platform list. The model covers:

- the genre normalizer (`consolidate_genres` / `map_genres`). It maps raw sub-genres to broad categories through a fixed 23-entry table, keeps each category once and rewrites the genre column in place.
- the category universe offered by the genre selector (`broad_genres`). It is every token of the normalized genre column, each once, in ascending order.
- the "Top-Rated Games by Genre" tab. It keeps the records whose genre string contains the selected category, ignoring case, and then takes `nlargest(10, 'rating')`.
- the "Platform Popularity Over Time" tab:
  - the inclusive year-range filter;
  - the in-place rewrite of the platform column through the 83-entry platform-to-family table, where each token is stripped and mapped, and each family is kept once per record;
  - the `split` / `explode` / `strip` steps;
  - the `groupby(['year', 'platforms']).size()` count.

Modules:

- `Text` holds Python's `split(", ")`, `", ".join`, `strip()` and case-insensitive containment. It also holds the join of a set, whose iteration order is left open.
- `Seqs` holds boolean-mask row selection.
- `Order` holds Python's string order and `sorted(set(...))`.
- `Games` holds the record type.
- `Genres` holds the genre normalizer and the category universe.
- `Filters` holds the two filters and the top-10 selection.
- `PlatformTable` holds the family table.
- `Platforms` holds the rewrite, explode and count steps.

Python iterates a set in an unspecified order. Method `Text.JoinSet` therefore picks elements in an arbitrary order, and every contract about a joined string speaks only of its set of pieces (`IsJoinOf`). The data loaded from the catalog is a sequence of records. The frames the script overwrites in place are arrays. In those arrays `ConsolidateGenres` and `NormalizePlatforms` rewrite one column, and `CountPlatformRows` counts the exploded rows into a map.

## Model

| member | source | states |
|---|---|---|
| Text.Split | main.py:32 | `s.split(", ")` yields at least one piece, and no piece contains the separator |
| Text.Join | main.py:34 | `", ".join(xs)` starts with the first piece, and when more pieces follow, the separator comes right after it (JoinSplit and SplitJoin are its round trips) |
| Text.JoinSplit | main.py:32-34 | joining the pieces of a split with ", " gives back the original string |
| Text.SplitJoin | main.py:34 | splitting a join of separator-free pieces gives back exactly those pieces |
| Text.JoinSet | main.py:34 | `", ".join(set)` produces a string whose pieces are exactly the set's elements, each once, in some order |
| Text.SingleJoin | main.py:34 | the only join of a one-element set is that element |
| Text.Strip | main.py:191 | `strip()` never lengthens its input, and its result has no white space (Python's `isspace`) at either end |
| Text.StripTrimmed | main.py:191 | the stripped string is a contiguous slice of the input, and everything before and after that slice is white space |
| Text.StripStripped | main.py:191 | a string with no white space at either end is left unchanged by `strip()` |
| Text.StripIdempotent | main.py:191 | stripping twice gives what stripping once gives |
| Text.SplitCons | main.py:32 | splitting `a + ", " + b` for a separator-free `a` gives `a` followed by the pieces of `b` |
| Text.Lower | main.py:68 | lower-casing keeps the length, leaves no upper-case ASCII letter and changes no other character |
| Text.ContainsIgnoreCase | main.py:68 | `contains(category, case=False)` holds for the empty category and for every exact occurrence |
| Text.LowerIdempotent | main.py:68 | lower-casing is idempotent and leaves no upper-case ASCII letter |
| Text.StripNoSep | main.py:191 | stripping a separator-free token cannot create a separator |
| Text.ContainsIgnoreCaseLower | main.py:68 | `contains(..., case=False)` gives the same answer when either string is lower-cased first |
| Seqs.Keep | main.py:93 | mask selection never grows the frame |
| Seqs.KeepMembers | main.py:93 | mask selection keeps exactly the elements that satisfy the mask |
| Seqs.KeepSnoc | main.py:93 | selecting from a frame with one more row appends that row exactly when it satisfies the mask |
| Seqs.KeepEvery | main.py:93 | a mask every row satisfies keeps the whole frame |
| Seqs.KeepNone | main.py:93 | a mask no row satisfies keeps nothing |
| Seqs.KeepSame | main.py:68 | two masks that agree on every row select the same rows |
| Seqs.KeepMultiplicity | main.py:93 | mask selection keeps each satisfying element as often as it occurs, and drops the others entirely |
| Seqs.KeepOrder | main.py:93 | the k-th kept element is the element at the k-th satisfying position, so relative order is kept |
| Seqs.KeepAppend | main.py:93 | selecting from a concatenation is concatenating the selections |
| Order.Less | main.py:49 | in Python's string order a proper prefix sorts before its extensions |
| Order.LessLexicographic | main.py:49 | the order holds exactly when the first string is a proper prefix of the second, or is smaller at the first index where they differ |
| Order.LessTransitive | main.py:49 | Python's string order is transitive |
| Order.LessTotal | main.py:49 | any two distinct strings are ordered one way or the other |
| Order.InsertAscending | main.py:49 | inserting into a strictly ascending list keeps it strictly ascending and adds exactly the new element |
| Order.SortedDistinct | main.py:49 | `sorted(set(xs))` is strictly ascending and has exactly the elements of `xs` |
| Order.AscendingUnique | main.py:49 | two strictly ascending listings of the same set are equal, so `sorted(set(...))` has one result |
| Genres.MapGenre | main.py:33 | `genre_mapping.get(t, t)` turns a listed sub-genre into one of the nine broad categories and leaves any other token unchanged |
| Genres.GenreSet | main.py:32-34 | every genre string, even the empty one, yields at least one category |
| Genres.MappingValues | main.py:6-30 | every value of the genre table is one of the nine broad categories, none holding the separator |
| Genres.CategoryFixed | main.py:6-30 | a broad category is either absent from the table or mapped to itself |
| Genres.MappingValuesFixed | main.py:6-30 | every value of the genre table is either not a key or a key mapped to itself |
| Genres.MapGenreIdempotent | main.py:33 | mapping a token twice gives what mapping it once gives |
| Genres.GenreSetNoSep | main.py:31-34 | a genre string yields at least one category, and no category contains the separator |
| Genres.MapGenres | main.py:31-34 | the normalized string has no repeated category, and a category appears exactly when it is the image of some input token |
| Genres.NoInventedLabels | main.py:31-34 | every output category is a table value for some input token, or an input token absent from the table |
| Genres.DropsNothing | main.py:32-34 | the image of every input token appears in the output |
| Genres.NormalizationIdempotent | main.py:6-34 | normalizing an already normalized string leaves its set of categories unchanged |
| Genres.ShooterTactical | main.py:31-34 | `"Shooter, Tactical"` normalizes to exactly `"Action"` |
| Genres.ConsolidateGenres | main.py:35 | the genre column is overwritten in place with normalized strings; every other field of every record is unchanged |
| Genres.BroadGenres | main.py:49 | the category universe is strictly ascending and holds exactly the tokens found in some record's genre string |
| Genres.AllTokens | main.py:49 | the token list holds exactly the tokens of some record's genre string |
| Genres.BroadGenresUnique | main.py:49 | any strictly ascending listing of those tokens is the category universe |
| Filters.InYears | main.py:93 | the year mask of a one-year range selects exactly that year, and that of a reversed range selects nothing |
| Filters.MatchesGenre | main.py:68 | the genre mask selects every record whose genre string contains the category exactly, and every record when the category is empty |
| Filters.YearFilter | main.py:93 | the year filter keeps exactly the records with `lo <= year <= hi`; it is empty exactly when no record is in range, and always empty when `lo > hi` |
| Filters.YearFilterOrder | main.py:93 | the kept records are those at the in-range positions, in order, each kept as often as it occurs |
| Filters.GenreFilter | main.py:68 | the genre filter keeps exactly the records whose genre string contains the category, ignoring case |
| Filters.GenreFilterOrder | main.py:68 | the genre filter keeps the records at the matching positions, in order, each kept as often as it occurs |
| Filters.GenreFilterIgnoresCase | main.py:68 | the genre filter gives the same rows for a category and for its lower-cased form |
| Filters.InsertByRating | main.py:73 | inserting a record into a list ordered by rating keeps it ordered and adds exactly that record |
| Filters.SortByRating | main.py:73 | sorting by rating yields a permutation of the frame with ratings highest first |
| Filters.PrefixDominates | main.py:73 | the first `m` records of a rating-ordered list are ordered, come from it, and no record after them is rated higher than one of them |
| Filters.NLargest | main.py:73 | `nlargest(n)` takes `min(n, len)` records from the frame, orders them by rating highest first, and rates no record left out higher than any record taken |
| Filters.TopRated | main.py:68-73 | the top-rated table has `min(10, matches)` rows, drawn from the genre-filtered frame with no record more often than it occurs there, ordered by rating, with no record left out rated higher than one shown |
| Filters.GenreView | main.py:68-73 | the tab shows the "no data" warning exactly when no record matches the genre; otherwise it shows the non-empty top-rated table |
| Filters.ActionScenario | main.py:68 | a record whose raw genres were `"Shooter, Tactical"` is listed under the Action category |
| PlatformTable.DesktopLookups | main.py:130-132 | Windows, Linux and Mac all map to the PC family |
| PlatformTable.MappingValues | main.py:98-188 | every value of the platform table is one of the seven families |
| PlatformTable.FamilyNamesClean | main.py:98-188 | the seven family names have no surrounding white space and no separator |
| PlatformTable.PlatformMappingClean | main.py:98-188 | every family name is stripped and contains no separator |
| Platforms.MapPlatform | main.py:191 | `platform_mapping.get(t.strip(), t.strip())` yields a family of the table, or the stripped name itself when the table does not list it |
| Platforms.FamilySet | main.py:191 | every platform string, even the empty one, yields at least one family |
| Platforms.FamilySetTokens | main.py:191 | a platform string yields at least one family, and every family is stripped and separator-free |
| Platforms.MapPlatformClean | main.py:191 | a stripped and mapped token never contains the separator and is already stripped |
| Platforms.NormalizePlatformString | main.py:190-192 | the rewritten platform string has no repeated family, and a family appears exactly when some stripped input token maps to it |
| Platforms.NormalizePlatforms | main.py:190-192 | the platform column is rewritten in place, record by record; every other field is unchanged |
| Platforms.RowsOf | main.py:194-196 | a record explodes into one row per piece of its platform string, each carrying the record's year |
| Platforms.Explode | main.py:194-196 | `explode` gives every record at least one row |
| Platforms.RowsOfNormalized | main.py:190-196 | a rewritten record explodes into exactly one row per family, with no repeated row, all carrying its year |
| Platforms.CountRows | main.py:198-202 | the group counts have one key per distinct row; each value is that row's number of occurrences and is at least 1 |
| Platforms.CountRowsSnoc | main.py:198-202 | counting one more row adds one to its count and leaves every other count unchanged |
| Platforms.ExplodeSnoc | main.py:194-196 | exploding a frame with one more record appends that record's rows |
| Platforms.TotalAdd | main.py:198-202 | counting one more row raises the sum of the counts by one |
| Platforms.SumFamiliesSnoc | main.py:190-196 | one more record adds its number of distinct families to the family total |
| Platforms.CountRecord | main.py:194-202 | counting one record's stripped pieces adds exactly its exploded rows to the counts |
| Platforms.CountPlatformRows | main.py:194-202 | the counting loop produces the group counts of the exploded frame |
| Platforms.TotalCountRows | main.py:198-202 | the counts add up to the number of exploded rows |
| Platforms.YearTotal | main.py:198-202 | the counts of one year add up to the number of exploded rows of that year |
| Platforms.ExplodeCount | main.py:190-202 | after the rewrite, a (year, family) row occurs once per record of that year listing a platform of that family |
| Platforms.ExplodeLength | main.py:194-196 | the exploded frame has as many rows as the records list distinct families in all |
| Platforms.YearRows | main.py:194-196 | the exploded rows of a year number as many as that year's records list distinct families |
| Platforms.FamilyCounts | main.py:190-202 | the chart data holds a (year, family) point exactly when some record of that year lists that family, valued at the number of such records (so at least 1). The values sum to the per-record family counts, in total and year by year |
| Platforms.PlatformPopularity | main.py:93-202 | the tab warns exactly when no record is in the year range; otherwise its counts are those of the in-range records, as above |
| Platforms.DesktopFamilies | main.py:191 | `"PC (Microsoft Windows), Linux, Mac"` lists the single family PC |
| Platforms.OneFamilyOfThree | main.py:191 | a three-piece platform string whose pieces all map to one family lists that family alone |
| Platforms.SingleFamilyRows | main.py:190-196 | a rewritten record with a single stripped family explodes into one row of that family |
| Platforms.DesktopRows | main.py:190-196 | once rewritten, such a record explodes into the one row (year, PC) |

## Left out

- The Streamlit page (title, sidebar, selectbox, slider, tabs, warnings, tables, download button) is presentation only. The selected genre and the year range are parameters. A "no data" warning is the `None` case of the views.
- The Plotly charts only draw the computed frames.
- Reading the CSV, `pd.to_datetime`, the `.dt.year` derivation and the `@st.cache_data` memoization are file I/O and library parsing. The year is taken as an already derived integer field of each record.
- The CSV export via `to_csv` is a library serializer.
- Missing values (NaN) are not modelled: every record's genre and platform fields are strings, and every rating is a number. The `na=False` of the genre filter and the NaN handling of `nlargest` and `groupby` therefore play no part.
- Ratings are exact reals and are only compared. Floating-point behaviour is not modelled.
- `str.contains` treats the category as a regular expression. The model uses plain substring containment with ASCII lower-casing for `case=False`. Regex metacharacters and Unicode case folding are not modelled.
- `Filters.NLargest`: it states the size, the source frame, the rating order and dominance. It does not state which of several equally rated records comes first, or which is kept at the cut-off. The model sorts stably, but pandas' tie-breaking internals are not stated as a contract.
- `Filters.TopRated` returns whole records. The projection to the name, rating and platform columns (main.py:73) is not modelled.
- The order in which Python iterates a set, and so the order of categories or families inside a rewritten string, is left open. Every contract holds for any order.
- The platform chart counts every family of every in-range record, as `main.py` does. A variant copy of the script, `main (1).py` (lines 121-126), first keeps only the records that list one of the ten most frequent rewritten platform values. That variant is not part of this model.
- `groupby` also sorts its groups and `reset_index` turns them into a frame. The model's count table is a map from (year, family) to count, so it carries no order.
