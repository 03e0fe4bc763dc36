/**
 * The platform-to-family table of the "Platform Popularity Over Time" tab.
 */
module PlatformTable {
  import opened Text

  // The platform-to-family table, one key set per family. Every platform
  // name is listed under exactly one family, so the order in which the
  // per-family maps are united does not change the table.

  const NintendoPlatforms: set<string> := {
    "Nintendo Switch",
    "Nintendo 64",
    "Nintendo 3DS",
    "New Nintendo 3DS",
    "Nintendo DS",
    "Nintendo DSi",
    "Game Boy",
    "Game Boy Advance",
    "Game Boy Color",
    "Nintendo Entertainment System",
    "Super Nintendo Entertainment System",
    "Nintendo GameCube",
    "Family Computer",
    "Family Computer Disk System",
    "Satellaview"
  }

  const PlayStationPlatforms: set<string> := {
    "PlayStation",
    "PlayStation 2",
    "PlayStation 3",
    "PlayStation 4",
    "PlayStation 5",
    "PlayStation Portable",
    "PlayStation Vita",
    "PlayStation VR",
    "PlayStation VR2"
  }

  const XboxPlatforms: set<string> := {
    "Xbox",
    "Xbox 360",
    "Xbox One",
    "Xbox Series X|S"
  }

  const PCPlatforms: set<string> := {
    "PC (Microsoft Windows)",
    "Linux",
    "Mac",
    "SteamVR",
    "Windows Mixed Reality"
  }

  const MobilePlatforms: set<string> := {
    "Android",
    "iOS",
    "Windows Phone",
    "Windows Mobile",
    "Palm OS",
    "Meta Quest 2",
    "Meta Quest 3",
    "Oculus Go",
    "Oculus Quest",
    "Oculus Rift",
    "Daydream",
    "BlackBerry OS",
    "Legacy Mobile Device"
  }

  const ArcadePlatforms: set<string> := {
    "Arcade",
    "Neo Geo AES",
    "Neo Geo CD",
    "Neo Geo MVS",
    "SG-1000"
  }

  const OtherPlatforms: set<string> := {
    "Dreamcast",
    "Sega Game Gear",
    "Sega Mega Drive/Genesis",
    "Sega Master System/Mark III",
    "Sega Saturn",
    "Sega CD",
    "Sega 32X",
    "TurboGrafx-16/PC Engine",
    "TurboGrafx-16/PC Engine CD",
    "Vectrex",
    "Zeebo",
    "Philips CD-i",
    "DVD Player",
    "Blu-ray Player",
    "3DO Interactive Multiplayer",
    "ColecoVision",
    "Atari 2600",
    "Atari 5200",
    "Atari 7800",
    "Atari Jaguar",
    "Atari Jaguar CD",
    "Atari Lynx",
    "Commodore C64/128/MAX",
    "Commodore Amiga",
    "Commodore PET",
    "Commodore VIC-20",
    "MSX",
    "MSX2",
    "FM Towns",
    "Acorn Archimedes",
    "ZX Spectrum",
    "Sharp X68000"
  }

  /** `platform_mapping`: platform name to family. */
  const PlatformMapping: map<string, string> :=
    (map k | k in NintendoPlatforms :: "Nintendo")
    + (map k | k in PlayStationPlatforms :: "PlayStation")
    + (map k | k in XboxPlatforms :: "Xbox")
    + (map k | k in MobilePlatforms :: "Mobile")
    + (map k | k in ArcadePlatforms :: "Arcade")
    + (map k | k in OtherPlatforms :: "Other")
    + (map k | k in PCPlatforms :: "PC")

  /** The families the table maps to. */
  const Families: set<string> := {"Nintendo", "PlayStation", "Xbox", "PC", "Mobile", "Arcade", "Other"}

  /** The three desktop platforms of the PC family. */
  lemma DesktopLookups()
    ensures "PC (Microsoft Windows)" in PlatformMapping && PlatformMapping["PC (Microsoft Windows)"] == "PC"
    ensures "Linux" in PlatformMapping && PlatformMapping["Linux"] == "PC"
    ensures "Mac" in PlatformMapping && PlatformMapping["Mac"] == "PC"
  {
  }

  /** A table whose values are stripped and hold no ", " separator. */
  predicate CleanTable(table: map<string, string>) {
    forall k :: k in table ==> NoSep(table[k]) && Strip(table[k]) == table[k]
  }

  /** The platform table is clean. */
  lemma PlatformMappingClean()
    ensures CleanTable(PlatformMapping)
  {
    MappingValues();
    FamilyNamesClean();
  }

  /** Every table value is one of the families. */
  lemma MappingValues()
    ensures forall k :: k in PlatformMapping ==> PlatformMapping[k] in Families
  {
  }

  /** Family names have no surrounding white space and no separator. */
  lemma FamilyNamesClean()
    ensures forall f :: f in Families ==> NoSep(f) && Strip(f) == f
  {
    forall f | f in Families ensures NoSep(f) && Strip(f) == f {
      NoCommaNoSep(f);
      StripStripped(f);
    }
  }
}

/**
 * The "Platform Popularity Over Time" tab: platform names are mapped to
 * families, each record is exploded into one row per family, and rows are
 * counted per (year, family).
 */
module Platforms {
  import opened Text
  import opened Seqs
  import opened Games
  import opened Filters
  import opened PlatformTable

  /**
   * `table.get(t.strip(), t.strip())`: the family of a listed name, or the
   * stripped name itself when the table does not list it.
   */
  function MapPlatform(table: map<string, string>, t: string): (f: string)
    ensures Strip(t) in table ==> f in table.Values
    ensures Strip(t) !in table ==> f == Strip(t)
  {
    var s := Strip(t);
    if s in table then table[s] else s
  }

  /**
   * The families of a raw platform string: each token mapped, as a set.
   * Every platform string, even the empty one, yields a family.
   */
  function FamilySet(table: map<string, string>, p: string): (fs: set<string>)
    ensures fs != {}
  {
    var fs := set t | t in Split(p) :: MapPlatform(table, t);
    assert MapPlatform(table, Split(p)[0]) in fs;
    fs
  }

  /** Every family of a record is stripped and separator-free, and there is one at least. */
  lemma FamilySetTokens(table: map<string, string>, p: string)
    requires CleanTable(table)
    ensures FamilySet(table, p) != {}
    ensures forall x :: x in FamilySet(table, p) ==> NoSep(x) && Strip(x) == x
  {
    var pieces := Split(p);
    assert MapPlatform(table, pieces[0]) in FamilySet(table, p);
    forall x | x in FamilySet(table, p) ensures NoSep(x) && Strip(x) == x {
      var t :| t in pieces && x == MapPlatform(table, t);
      var k :| 0 <= k < |pieces| && pieces[k] == t;
      MapPlatformClean(table, t);
    }
  }

  /** A separator-free token maps to a stripped, separator-free family. */
  lemma MapPlatformClean(table: map<string, string>, t: string)
    requires CleanTable(table) && NoSep(t)
    ensures NoSep(MapPlatform(table, t)) && Strip(MapPlatform(table, t)) == MapPlatform(table, t)
  {
    var s := Strip(t);
    if s !in table {
      StripNoSep(t);
      StripStripped(s);
    }
  }

  /**
   * The rewrite of one platform string (the lambda applied to the column):
   * strip and map each token, keep each family once, and join with ", " in
   * set iteration order.
   */
  method NormalizePlatformString(table: map<string, string>, p: string) returns (r: string)
    requires CleanTable(table)
    ensures NoDups(Split(r))
    ensures forall x :: x in Split(r) <==> exists t :: t in Split(p) && x == MapPlatform(table, t)
    ensures IsJoinOf(r, FamilySet(table, p))
  {
    FamilySetTokens(table, p);
    r := JoinSet(FamilySet(table, p));
    forall x ensures x in Split(r) <==> x in FamilySet(table, p) {
      assert x in Split(r) <==> x in Elems(Split(r));
    }
  }

  /** `n` is `o` with its platform string replaced by its normalized form. */
  predicate NormalizedRecord(table: map<string, string>, n: Game, o: Game) {
    n == o.(platforms := n.platforms) && IsJoinOf(n.platforms, FamilySet(table, o.platforms))
  }

  /** Record by record, `norm` is `orig` with normalized platform strings. */
  predicate NormalizedColumn(table: map<string, string>, norm: seq<Game>, orig: seq<Game>) {
    |norm| == |orig| && forall i :: 0 <= i < |norm| ==> NormalizedRecord(table, norm[i], orig[i])
  }

  /**
   * The in-place rewrite of the platform column of the year-filtered
   * frame; every other column is left as it was.
   */
  method NormalizePlatforms(table: map<string, string>, a: array<Game>)
    requires CleanTable(table)
    modifies a
    ensures NormalizedColumn(table, a[..], old(a[..]))
  {
    for i := 0 to a.Length
      invariant NormalizedColumn(table, a[..i], old(a[..i]))
      invariant a[i..] == old(a[i..])
    {
      var g := a[i];
      assert g == old(a[i]) by { assert a[i..][0] == old(a[i..])[0]; }
      var p := NormalizePlatformString(table, g.platforms);
      ghost var done := a[..i];
      a[i] := g.(platforms := p);
      assert a[..i] == done;
      NormalizedSnoc(table, done, old(a[..i]), a[i], g);
      assert a[..i + 1] == done + [a[i]];
      assert old(a[..i + 1]) == old(a[..i]) + [g];
    }
    assert a[..a.Length] == a[..];
    assert old(a[..a.Length]) == old(a[..]);
  }

  /** A normalized column stays normalized when one more normalized record is appended. */
  lemma NormalizedSnoc(table: map<string, string>, norm: seq<Game>, orig: seq<Game>, n: Game, o: Game)
    requires NormalizedColumn(table, norm, orig) && NormalizedRecord(table, n, o)
    ensures NormalizedColumn(table, norm + [n], orig + [o])
  {
  }

  /** One exploded row: (release year, platform family). */
  type Row = (int, string)

  /**
   * The rows one record explodes into: its platform string split on ", "
   * and each piece stripped, all carrying the record's year.
   */
  function RowsOf(g: Game): (rows: seq<Row>)
    ensures |rows| == |Split(g.platforms)|
    ensures forall k :: 0 <= k < |rows| ==> rows[k].0 == g.year
  {
    var pieces := Split(g.platforms);
    seq(|pieces|, k requires 0 <= k < |pieces| => (g.year, Strip(pieces[k])))
  }

  /**
   * `explode('platforms')`: the rows of every record, record after record;
   * every record gives at least one row.
   */
  function Explode(gs: seq<Game>): (rows: seq<Row>)
    ensures |rows| >= |gs|
    decreases |gs|
  {
    if gs == [] then [] else Explode(gs[..|gs| - 1]) + RowsOf(gs[|gs| - 1])
  }

  /** Counts one more occurrence of `k`. */
  function Add(m: map<Row, nat>, k: Row): map<Row, nat> {
    m[k := if k in m then m[k] + 1 else 1]
  }

  /**
   * `groupby(['year', 'platforms']).size()`: every distinct row with the
   * number of times it occurs.
   */
  function CountRows(rows: seq<Row>): (m: map<Row, nat>)
    ensures forall k :: k in m <==> k in rows
    ensures forall k :: k in m ==> m[k] == multiset(rows)[k] && m[k] >= 1
    decreases |rows|
  {
    if rows == [] then map[]
    else
      var n := |rows| - 1;
      assert rows == rows[..n] + [rows[n]];
      Add(CountRows(rows[..n]), rows[n])
  }

  /**
   * The counting loop over the exploded frame: every piece of every
   * record's platform string, stripped, is counted under (year, piece).
   */
  method CountPlatformRows(a: array<Game>) returns (counts: map<Row, nat>)
    ensures counts == CountRows(Explode(a[..]))
  {
    counts := map[];
    for i := 0 to a.Length
      invariant counts == CountRows(Explode(a[..i]))
    {
      counts := CountRecord(counts, a[i], Explode(a[..i]));
      ExplodeSnoc(a[..i], a[i]);
      assert a[..i + 1] == a[..i] + [a[i]];
    }
    assert a[..a.Length] == a[..];
  }

  /** Counts the rows of one record on top of the counts of the rows `done`. */
  method CountRecord(counts: map<Row, nat>, g: Game, ghost done: seq<Row>) returns (r: map<Row, nat>)
    requires counts == CountRows(done)
    ensures r == CountRows(done + RowsOf(g))
  {
    var pieces := Split(g.platforms);
    ghost var rows := RowsOf(g);
    assert done + rows[..0] == done;
    r := counts;
    for j := 0 to |pieces|
      invariant r == CountRows(done + rows[..j])
    {
      var key := (g.year, Strip(pieces[j]));
      RowsOfAt(g, j);
      CountStep(done, rows, j);
      r := Add(r, key);
    }
    assert rows[..|pieces|] == rows;
  }

  /** The `j`-th row of a record is its `j`-th piece, stripped. */
  lemma RowsOfAt(g: Game, j: nat)
    requires j < |Split(g.platforms)|
    ensures |RowsOf(g)| == |Split(g.platforms)|
    ensures RowsOf(g)[j] == (g.year, Strip(Split(g.platforms)[j]))
  {
  }

  /** Counting one more row of `rows` after `done + rows[..j]`. */
  lemma CountStep(done: seq<Row>, rows: seq<Row>, j: nat)
    requires j < |rows|
    ensures CountRows(done + rows[..j + 1]) == Add(CountRows(done + rows[..j]), rows[j])
  {
    SnocPrefix(done, rows, j);
    CountRowsSnoc(done + rows[..j], rows[j]);
  }

  lemma SnocPrefix(done: seq<Row>, rows: seq<Row>, j: nat)
    requires j < |rows|
    ensures done + rows[..j + 1] == (done + rows[..j]) + [rows[j]]
  {
    assert rows[..j + 1] == rows[..j] + [rows[j]];
  }

  lemma ExplodeSnoc(gs: seq<Game>, g: Game)
    ensures Explode(gs + [g]) == Explode(gs) + RowsOf(g)
  {
    assert (gs + [g])[..|gs|] == gs;
  }

  lemma CountRowsSnoc(rows: seq<Row>, k: Row)
    ensures CountRows(rows + [k]) == Add(CountRows(rows), k)
  {
    assert (rows + [k])[..|rows|] == rows;
  }

  /** The sum of all counts of a table. */
  ghost function Total(m: map<Row, nat>): nat
    decreases |m|
  {
    if m == map[] then 0
    else
      var k :| k in m;
      assert |(m - {k}).Keys| < |m.Keys| by {
        assert (m - {k}).Keys == m.Keys - {k};
      }
      m[k] + Total(m - {k})
  }

  /** The sum does not depend on which key is taken first. */
  lemma {:induction false} TotalRemove(m: map<Row, nat>, k: Row)
    requires k in m
    ensures Total(m) == m[k] + Total(m - {k})
    decreases |m|
  {
    var j :| j in m && Total(m) == m[j] + Total(m - {j});
    if j != k {
      assert (m - {j}).Keys == m.Keys - {j};
      assert (m - {k}).Keys == m.Keys - {k};
      TotalRemove(m - {j}, k);
      TotalRemove(m - {k}, j);
      assert m - {j} - {k} == m - {k} - {j};
    }
  }

  /** Counting one more row adds one to the total. */
  lemma TotalAdd(m: map<Row, nat>, k: Row)
    ensures Total(Add(m, k)) == Total(m) + 1
  {
    var m' := Add(m, k);
    TotalRemove(m', k);
    if k in m {
      TotalRemove(m, k);
      assert m' - {k} == m - {k};
    } else {
      assert m' - {k} == m;
    }
  }

  /** The counts add up to the number of rows. */
  lemma {:induction false} TotalCountRows(rows: seq<Row>)
    ensures Total(CountRows(rows)) == |rows|
    decreases |rows|
  {
    if rows != [] {
      var n := |rows| - 1;
      TotalCountRows(rows[..n]);
      TotalAdd(CountRows(rows[..n]), rows[n]);
    }
  }

  /** The part of a count table for one year. */
  function ForYear(m: map<Row, nat>, y: int): map<Row, nat> {
    map k | k in m && k.0 == y :: m[k]
  }

  /** The row mask for one year. */
  function RowInYear(y: int): Row -> bool {
    (k: Row) => k.0 == y
  }

  /** The counts of one year add up to the number of rows of that year. */
  lemma YearTotal(rows: seq<Row>, y: int)
    ensures Total(ForYear(CountRows(rows), y)) == |Keep(rows, RowInYear(y))|
  {
    var kept := Keep(rows, RowInYear(y));
    KeepMembers(rows, RowInYear(y));
    var m := CountRows(rows);
    var c := CountRows(kept);
    forall k ensures k in ForYear(m, y) <==> k in c {
      assert k in kept <==> k in rows && k.0 == y;
    }
    forall k | k in c ensures ForYear(m, y)[k] == c[k] {
      KeepMultiplicity(rows, RowInYear(y), k);
    }
    assert ForYear(m, y) == c;
    TotalCountRows(kept);
  }

  /**
   * The rows of a normalized record: one per family of the original
   * record, each once, all carrying the record's year.
   */
  lemma RowsOfNormalized(table: map<string, string>, n: Game, o: Game)
    requires CleanTable(table) && NormalizedRecord(table, n, o)
    ensures NoDups(RowsOf(n))
    ensures forall k :: k in RowsOf(n) <==> k.0 == o.year && k.1 in FamilySet(table, o.platforms)
    ensures |RowsOf(n)| == |FamilySet(table, o.platforms)|
  {
    var pieces := Split(n.platforms);
    var rows := RowsOf(n);
    RowsArePieces(table, n, o);
    forall i, j | 0 <= i < j < |rows| ensures rows[i] != rows[j] {
      assert pieces[i] != pieces[j];
    }
    forall k: Row | k.0 == o.year && k.1 in FamilySet(table, o.platforms) ensures k in rows {
      assert k.1 in Elems(pieces);
      var i :| 0 <= i < |pieces| && pieces[i] == k.1;
      assert rows[i] == k;
    }
    forall k | k in rows ensures k.0 == o.year && k.1 in FamilySet(table, o.platforms) {
      var i :| 0 <= i < |rows| && rows[i] == k;
      assert pieces[i] in Elems(pieces);
    }
    NoDupsCard(pieces);
  }

  /** The pieces of a normalized string are already stripped. */
  lemma RowsArePieces(table: map<string, string>, n: Game, o: Game)
    requires CleanTable(table) && NormalizedRecord(table, n, o)
    ensures |RowsOf(n)| == |Split(n.platforms)|
    ensures forall k :: 0 <= k < |RowsOf(n)| ==> RowsOf(n)[k] == (o.year, Split(n.platforms)[k])
  {
    var pieces := Split(n.platforms);
    FamilySetTokens(table, o.platforms);
    forall k | 0 <= k < |pieces| ensures Strip(pieces[k]) == pieces[k] {
      assert pieces[k] in Elems(pieces);
    }
  }

  /** The record mask for "released in year `y` on a platform of family `f`". */
  function Lists(table: map<string, string>, y: int, f: string): Game -> bool {
    (g: Game) => g.year == y && f in FamilySet(table, g.platforms)
  }

  /** The number of families each record lists, added up. */
  function SumFamilies(table: map<string, string>, gs: seq<Game>): nat
    decreases |gs|
  {
    if gs == [] then 0
    else SumFamilies(table, gs[..|gs| - 1]) + |FamilySet(table, gs[|gs| - 1].platforms)|
  }

  lemma SumFamiliesSnoc(table: map<string, string>, gs: seq<Game>, g: Game)
    ensures SumFamilies(table, gs + [g]) == SumFamilies(table, gs) + |FamilySet(table, g.platforms)|
  {
    assert (gs + [g])[..|gs|] == gs;
  }

  lemma NormalizedPrefix(table: map<string, string>, norm: seq<Game>, orig: seq<Game>, n: nat)
    requires NormalizedColumn(table, norm, orig) && n <= |norm|
    ensures NormalizedColumn(table, norm[..n], orig[..n])
  {
  }

  /**
   * After normalization, a (year, family) row occurs in the exploded frame
   * exactly as many times as there are records of that year listing a
   * platform of that family: a record listing several platforms of one
   * family counts once.
   */
  lemma {:induction false} ExplodeCount(table: map<string, string>, norm: seq<Game>, orig: seq<Game>, k: Row)
    requires CleanTable(table) && NormalizedColumn(table, norm, orig)
    ensures multiset(Explode(norm))[k] == |Keep(orig, Lists(table, k.0, k.1))|
    decreases |norm|
  {
    if norm != [] {
      var n := |norm| - 1;
      NormalizedPrefix(table, norm, orig, n);
      ExplodeCount(table, norm[..n], orig[..n], k);
      RowsOfNormalized(table, norm[n], orig[n]);
      NoDupsMultiplicity(RowsOf(norm[n]), k);
      FrontLast(orig);
    }
  }

  /** The exploded frame has one row per family per record. */
  lemma {:induction false} ExplodeLength(table: map<string, string>, norm: seq<Game>, orig: seq<Game>)
    requires CleanTable(table) && NormalizedColumn(table, norm, orig)
    ensures |Explode(norm)| == SumFamilies(table, orig)
    decreases |norm|
  {
    if norm != [] {
      var n := |norm| - 1;
      NormalizedPrefix(table, norm, orig, n);
      ExplodeLength(table, norm[..n], orig[..n]);
      RowsOfNormalized(table, norm[n], orig[n]);
      FrontLast(orig);
      SumFamiliesSnoc(table, orig[..n], orig[n]);
    }
  }

  /** The rows of one year are one per family per record of that year. */
  lemma {:induction false} YearRows(table: map<string, string>, norm: seq<Game>, orig: seq<Game>, y: int)
    requires CleanTable(table) && NormalizedColumn(table, norm, orig)
    ensures |Keep(Explode(norm), RowInYear(y))| == SumFamilies(table, Keep(orig, InYears(y, y)))
    decreases |norm|
  {
    if norm != [] {
      var n := |norm| - 1;
      NormalizedPrefix(table, norm, orig, n);
      YearRows(table, norm[..n], orig[..n], y);
      var done := Explode(norm[..n]);
      var rows := RowsOf(norm[n]);
      var before := Keep(orig[..n], InYears(y, y));
      var added := if orig[n].year == y then |FamilySet(table, orig[n].platforms)| else 0;
      assert Explode(norm) == done + rows;
      assert |Keep(done + rows, RowInYear(y))| == |Keep(done, RowInYear(y))| + added by {
        KeepAppend(done, rows, RowInYear(y));
        RowsOfNormalized(table, norm[n], orig[n]);
        if orig[n].year == y {
          KeepEvery(rows, RowInYear(y));
        } else {
          KeepNone(rows, RowInYear(y));
        }
      }
      assert SumFamilies(table, Keep(orig, InYears(y, y))) == SumFamilies(table, before) + added by {
        FrontLast(orig);
        if orig[n].year == y {
          assert Keep(orig, InYears(y, y)) == before + [orig[n]];
          SumFamiliesSnoc(table, before, orig[n]);
        } else {
          assert Keep(orig, InYears(y, y)) == before;
        }
      }
    }
  }

  /**
   * What the popularity chart plots for the records `recs`: a (year, family)
   * point exactly when some record of that year lists a platform of that
   * family, valued at the number of such records; all values add up to the
   * number of families listed per record, in total and year by year.
   */
  ghost predicate IsPopularity(table: map<string, string>, recs: seq<Game>, counts: map<Row, nat>) {
    && (forall k: Row :: k in counts <==> exists g :: g in recs && Lists(table, k.0, k.1)(g))
    && (forall k :: k in counts ==> counts[k] == |Keep(recs, Lists(table, k.0, k.1))| && counts[k] >= 1)
    && Total(counts) == SumFamilies(table, recs)
    && (forall y :: Total(ForYear(counts, y)) == SumFamilies(table, Keep(recs, InYears(y, y))))
  }

  /**
   * The chart data of a non-empty year-filtered frame: normalize the
   * platform column in place, explode it and count rows per (year, family).
   */
  method FamilyCounts(table: map<string, string>, recs: seq<Game>) returns (counts: map<Row, nat>)
    requires CleanTable(table)
    ensures IsPopularity(table, recs, counts)
  {
    var a := new Game[|recs|](i requires 0 <= i < |recs| => recs[i]);
    assert a[..] == recs;
    NormalizePlatforms(table, a);
    counts := CountPlatformRows(a);
    ghost var norm := a[..];
    ghost var rows := Explode(norm);
    forall k: Row ensures k in counts <==> exists g :: g in recs && Lists(table, k.0, k.1)(g) {
      ExplodeCount(table, norm, recs, k);
      var kept := Keep(recs, Lists(table, k.0, k.1));
      KeepMembers(recs, Lists(table, k.0, k.1));
      if k in counts {
        assert multiset(rows)[k] >= 1;
        assert kept[0] in kept;
      }
      if exists g :: g in recs && Lists(table, k.0, k.1)(g) {
        var g :| g in recs && Lists(table, k.0, k.1)(g);
        assert g in kept;
        assert k in multiset(rows);
      }
    }
    forall k | k in counts ensures counts[k] == |Keep(recs, Lists(table, k.0, k.1))| {
      ExplodeCount(table, norm, recs, k);
    }
    TotalCountRows(rows);
    ExplodeLength(table, norm, recs);
    forall y ensures Total(ForYear(counts, y)) == SumFamilies(table, Keep(recs, InYears(y, y))) {
      YearTotal(rows, y);
      YearRows(table, norm, recs, y);
    }
  }

  /**
   * The "Platform Popularity Over Time" tab for the year range `[lo, hi]`:
   * a "no data" warning when no record is in range, otherwise the counts
   * of the in-range records.
   */
  method PlatformPopularity(data: seq<Game>, lo: int, hi: int) returns (v: Option<map<Row, nat>>)
    ensures v.None? <==> forall g :: g in data ==> !(lo <= g.year <= hi)
    ensures v.Some? ==> IsPopularity(PlatformMapping, YearFilter(data, lo, hi), v.value)
  {
    var recs := YearFilter(data, lo, hi);
    if recs == [] {
      return None;
    }
    PlatformMappingClean();
    var counts := FamilyCounts(PlatformMapping, recs);
    return Some(counts);
  }

  /** The raw platform string `"PC (Microsoft Windows), Linux, Mac"`. */
  const DesktopRaw: string := "PC (Microsoft Windows)" + ", " + "Linux" + ", " + "Mac"

  lemma SplitDesktop()
    ensures Split(DesktopRaw) == ["PC (Microsoft Windows)", "Linux", "Mac"]
  {
    NoCommaNoSep("PC (Microsoft Windows)");
    NoCommaNoSep("Linux");
    NoCommaNoSep("Mac");
    SplitCons("Linux", "Mac");
    assert DesktopRaw == "PC (Microsoft Windows)" + ", " + ("Linux" + ", " + "Mac");
    SplitCons("PC (Microsoft Windows)", "Linux" + ", " + "Mac");
  }

  /** The four names of the example carry no white space at their ends. */
  lemma DesktopStripped()
    ensures Strip("PC (Microsoft Windows)") == "PC (Microsoft Windows)"
    ensures Strip("Linux") == "Linux" && Strip("Mac") == "Mac" && Strip("PC") == "PC"
  {
    NameStripped("PC (Microsoft Windows)");
    NameStripped("Linux");
    NameStripped("Mac");
    NameStripped("PC");
  }

  /** `"PC (Microsoft Windows), Linux, Mac"` lists the single family PC. */
  lemma DesktopFamilies()
    ensures FamilySet(PlatformMapping, DesktopRaw) == {"PC"}
  {
    SplitDesktop();
    DesktopStripped();
    DesktopLookups();
    MapPlatformHit(PlatformMapping, "PC (Microsoft Windows)");
    MapPlatformHit(PlatformMapping, "Linux");
    MapPlatformHit(PlatformMapping, "Mac");
    OneFamilyOfThree(PlatformMapping, DesktopRaw, "PC (Microsoft Windows)", "Linux", "Mac", "PC");
  }

  /** A three-piece platform string whose pieces all map to `f` has the single family `f`. */
  lemma OneFamilyOfThree(table: map<string, string>, p: string, a: string, b: string, c: string, f: string)
    requires Split(p) == [a, b, c]
    requires MapPlatform(table, a) == f && MapPlatform(table, b) == f && MapPlatform(table, c) == f
    ensures FamilySet(table, p) == {f}
  {
    var ts := Split(p);
    assert ts[0] == a;
    forall t | t in ts ensures MapPlatform(table, t) == f {
    }
  }

  /** A stripped name listed in the table maps to its entry. */
  lemma MapPlatformHit(table: map<string, string>, t: string)
    requires Strip(t) == t && t in table
    ensures MapPlatform(table, t) == table[t]
  {
  }

  /** ... so such a record, once normalized, explodes into the one row (year, PC). */
  lemma DesktopRows(n: Game, o: Game)
    requires o.platforms == DesktopRaw
    requires NormalizedRecord(PlatformMapping, n, o)
    ensures RowsOf(n) == [(o.year, "PC")]
  {
    DesktopFamilies();
    DesktopStripped();
    SingleFamilyRows(PlatformMapping, n, o, "PC");
  }

  /** A record with a single, stripped family explodes into one row. */
  lemma SingleFamilyRows(table: map<string, string>, n: Game, o: Game, f: string)
    requires NormalizedRecord(table, n, o)
    requires FamilySet(table, o.platforms) == {f} && Strip(f) == f
    ensures RowsOf(n) == [(o.year, f)]
  {
    SingleJoin(n.platforms, f);
  }
}
