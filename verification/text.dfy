/**
 * String primitives the dashboard's transformations are built from:
 * Python's `str.split(", ")`, `", ".join(...)`, `str.strip()`, the
 * case-insensitive substring test, and the joining of a set (whose
 * iteration order Python leaves unspecified).
 */
module Text {

  /** Index of the first ", " separator in `s`, or `|s|` when there is none. */
  function SepIndex(s: string): (i: nat)
    ensures i <= |s|
    ensures i < |s| ==> i + 1 < |s| && s[i] == ',' && s[i + 1] == ' '
    ensures forall j :: 0 <= j < i && j + 1 < |s| ==> !(s[j] == ',' && s[j + 1] == ' ')
    ensures i == |s| <==> NoSep(s)
    decreases |s|
  {
    if |s| < 2 then |s|
    else if s[0] == ',' && s[1] == ' ' then 0
    else 1 + SepIndex(s[1..])
  }

  /** `s` holds no ", " separator. */
  predicate NoSep(s: string) {
    forall j :: 0 <= j < |s| - 1 ==> !(s[j] == ',' && s[j + 1] == ' ')
  }

  /**
   * Python's `s.split(", ")`: the pieces between the separators, scanning
   * left to right; the empty string gives one empty piece.
   */
  function Split(s: string): (r: seq<string>)
    ensures |r| >= 1
    ensures forall k :: 0 <= k < |r| ==> NoSep(r[k])
    decreases |s|
  {
    var i := SepIndex(s);
    if i == |s| then [s] else [s[..i]] + Split(s[i + 2..])
  }

  /**
   * Python's `", ".join(xs)`: the result starts with the first piece, and
   * when more pieces follow, the separator comes right after it.
   */
  function Join(xs: seq<string>): (r: string)
    ensures xs != [] ==> |xs[0]| <= |r| && r[..|xs[0]|] == xs[0]
    ensures |xs| > 1 ==> OccursAt(r, ", ", |xs[0]|)
  {
    if |xs| == 0 then ""
    else if |xs| == 1 then xs[0]
    else xs[0] + ", " + Join(xs[1..])
  }

  /** Joining the pieces of a split gives back the original string. */
  lemma {:induction false} JoinSplit(s: string)
    ensures Join(Split(s)) == s
    decreases |s|
  {
    var i := SepIndex(s);
    if i < |s| {
      var head, rest := s[..i], s[i + 2..];
      calc {
        Join(Split(s));
        Join([head] + Split(rest));
        { JoinCons(head, Split(rest)); }
        head + ", " + Join(Split(rest));
        { JoinSplit(rest); }
        head + ", " + rest;
        { SliceAtSep(s, i); }
        s;
      }
    }
  }

  /** Joining one more piece in front. */
  lemma JoinCons(a: string, xs: seq<string>)
    requires |xs| >= 1
    ensures Join([a] + xs) == a + ", " + Join(xs)
  {
    assert ([a] + xs)[1..] == xs;
  }

  /** A string is what precedes a separator, the separator, and what follows it. */
  lemma SliceAtSep(s: string, i: nat)
    requires i + 1 < |s| && s[i] == ',' && s[i + 1] == ' '
    ensures s == s[..i] + ", " + s[i + 2..]
  {
  }

  /** A separator placed right after a separator-free prefix is the first one. */
  lemma SepIndexAfter(a: string, b: string)
    requires NoSep(a)
    ensures SepIndex(a + ", " + b) == |a|
  {
    var s := a + ", " + b;
    assert s[|a|] == ',' && s[|a| + 1] == ' ';
  }

  /** A string without commas holds no separator. */
  lemma NoCommaNoSep(s: string)
    requires ',' !in s
    ensures NoSep(s)
  {
    forall j | 0 <= j < |s| - 1 ensures s[j] != ',' {
      assert s[j] in s;
    }
  }

  /** Splitting peels off a separator-free first piece. */
  lemma SplitCons(a: string, b: string)
    requires NoSep(a)
    ensures Split(a + ", " + b) == [a] + Split(b)
  {
    var s := a + ", " + b;
    SepIndexAfter(a, b);
    assert s[..|a|] == a;
    assert s[|a| + 2..] == b;
  }

  /** Splitting a join of separator-free pieces gives back the pieces. */
  lemma {:induction false} SplitJoin(xs: seq<string>)
    requires |xs| >= 1
    requires forall k :: 0 <= k < |xs| ==> NoSep(xs[k])
    ensures Split(Join(xs)) == xs
    decreases |xs|
  {
    if |xs| > 1 {
      var tail := xs[1..];
      assert forall k :: 0 <= k < |tail| ==> NoSep(tail[k]) by {
        forall k | 0 <= k < |tail| ensures NoSep(tail[k]) {
          assert tail[k] == xs[k + 1];
        }
      }
      calc {
        Split(Join(xs));
        Split(xs[0] + ", " + Join(tail));
        { SplitCons(xs[0], Join(tail)); }
        [xs[0]] + Split(Join(tail));
        { SplitJoin(tail); }
        [xs[0]] + tail;
        xs;
      }
    }
  }

  /** The elements of a sequence, as a set. */
  function Elems<T>(xs: seq<T>): set<T> {
    set x | x in xs
  }

  /** No element occurs twice. */
  predicate NoDups<T(==)>(xs: seq<T>) {
    forall i, j :: 0 <= i < j < |xs| ==> xs[i] != xs[j]
  }

  /** A duplicate-free sequence has as many elements as its set. */
  lemma {:induction false} NoDupsCard<T>(xs: seq<T>)
    requires NoDups(xs)
    ensures |Elems(xs)| == |xs|
    decreases |xs|
  {
    if xs != [] {
      var n := |xs| - 1;
      var init := xs[..n];
      NoDupsCard(init);
      assert Elems(xs) == Elems(init) + {xs[n]};
      assert xs[n] !in Elems(init);
    }
  }

  /** In a duplicate-free sequence every element occurs exactly once. */
  lemma {:induction false} NoDupsMultiplicity<T>(xs: seq<T>, x: T)
    requires NoDups(xs)
    ensures multiset(xs)[x] == if x in xs then 1 else 0
    decreases |xs|
  {
    if xs != [] {
      var n := |xs| - 1;
      NoDupsMultiplicity(xs[..n], x);
      assert xs == xs[..n] + [xs[n]];
      assert x == xs[n] ==> x !in xs[..n];
    }
  }

  /**
   * `r` is what `", ".join(s)` can produce for the set `s`: the pieces of
   * `r` are the elements of `s`, each exactly once, in some order.
   */
  predicate IsJoinOf(r: string, s: set<string>) {
    NoDups(Split(r)) && Elems(Split(r)) == s
  }

  /** The only join of a one-element set is that element. */
  lemma SingleJoin(r: string, x: string)
    requires IsJoinOf(r, {x})
    ensures Split(r) == [x]
    ensures r == x
  {
    var ps := Split(r);
    NoDupsCard(ps);
    assert ps[0] in Elems(ps);
    assert ps == [x];
    JoinSplit(r);
  }

  /**
   * `", ".join(s)` for a set `s`. Python iterates a set of strings in an
   * order that depends on per-process hash randomisation; the loop picks
   * the next element arbitrarily, so the callers may rely on nothing but
   * the set of pieces.
   */
  method JoinSet(s: set<string>) returns (r: string)
    requires s != {}
    requires forall x :: x in s ==> NoSep(x)
    ensures IsJoinOf(r, s)
    ensures |Split(r)| == |s|
  {
    var order: seq<string> := [];
    var rest := s;
    while rest != {}
      invariant NoDups(order)
      invariant Elems(order) + rest == s
      invariant Elems(order) !! rest
      decreases rest
    {
      var x :| x in rest;
      order := order + [x];
      rest := rest - {x};
    }
    r := Join(order);
    SplitJoin(order);
    NoDupsCard(order);
  }

  /** Python's `str.isspace()` for one character. */
  predicate IsSpace(c: char) {
    || c == ' '
    || '\t' <= c <= '\r'
    || '\U{1c}' <= c <= '\U{1f}'
    || c == '\U{85}' || c == '\U{a0}' || c == '\U{1680}'
    || '\U{2000}' <= c <= '\U{200a}'
    || c == '\U{2028}' || c == '\U{2029}' || c == '\U{202f}' || c == '\U{205f}' || c == '\U{3000}'
  }

  /** The first index at or after `i` that does not hold white space, or `|s|`. */
  function SpanStart(s: string, i: nat): (j: nat)
    requires i <= |s|
    ensures i <= j <= |s|
    ensures forall k :: i <= k < j ==> IsSpace(s[k])
    ensures j < |s| ==> !IsSpace(s[j])
    decreases |s| - i
  {
    if i == |s| || !IsSpace(s[i]) then i else SpanStart(s, i + 1)
  }

  /** Scanning back from `j` towards `lo`: the end of the last non-white-space character. */
  function SpanEnd(s: string, lo: nat, j: nat): (e: nat)
    requires lo <= j <= |s|
    ensures lo <= e <= j
    ensures forall k :: e <= k < j ==> IsSpace(s[k])
    ensures e > lo ==> !IsSpace(s[e - 1])
    decreases j
  {
    if j == lo || !IsSpace(s[j - 1]) then j else SpanEnd(s, lo, j - 1)
  }

  /** Python's `s.strip()`: leading and trailing white space removed. */
  function Strip(s: string): (r: string)
    ensures |r| <= |s|
    ensures |r| > 0 ==> !IsSpace(r[0]) && !IsSpace(r[|r| - 1])
  {
    var lo := SpanStart(s, 0);
    s[lo..SpanEnd(s, lo, |s|)]
  }

  /** `r` is `s` with white space only before index `i` and after `i + |r|`. */
  predicate TrimmedAt(s: string, i: int, r: string) {
    && OccursAt(s, r, i)
    && (forall k :: 0 <= k < i ==> IsSpace(s[k]))
    && (forall k :: i + |r| <= k < |s| ==> IsSpace(s[k]))
  }

  /** What `strip()` removes is white space at the ends, and only that. */
  lemma StripTrimmed(s: string)
    ensures TrimmedAt(s, SpanStart(s, 0), Strip(s))
  {
  }

  /** Printable ASCII other than the blank is not white space. */
  lemma NotSpaceAscii(c: char)
    requires '!' <= c <= '~'
    ensures !IsSpace(c)
  {
  }

  /** A string without white space at either end is its own strip. */
  lemma StripStripped(s: string)
    requires |s| > 0 ==> !IsSpace(s[0]) && !IsSpace(s[|s| - 1])
    ensures Strip(s) == s
  {
  }

  /** Stripping twice strips once. */
  lemma StripIdempotent(s: string)
    ensures Strip(Strip(s)) == Strip(s)
  {
    StripStripped(Strip(s));
  }

  /** A string that starts and ends with a printable non-blank ASCII character is stripped. */
  lemma NameStripped(s: string)
    requires |s| > 0 && '!' <= s[0] <= '~' && '!' <= s[|s| - 1] <= '~'
    ensures Strip(s) == s
  {
    NotSpaceAscii(s[0]);
    NotSpaceAscii(s[|s| - 1]);
    StripStripped(s);
  }

  /** Stripping never creates a separator. */
  lemma StripNoSep(s: string)
    requires NoSep(s)
    ensures NoSep(Strip(s))
  {
    var r := Strip(s);
    var i := SpanStart(s, 0);
    StripTrimmed(s);
    forall j | 0 <= j < |r| - 1
      ensures !(r[j] == ',' && r[j + 1] == ' ')
    {
      assert r[j] == s[i + j] && r[j + 1] == s[i + j + 1];
    }
  }

  /** ASCII lower-casing of one character. */
  function LowerChar(c: char): char {
    if 'A' <= c <= 'Z' then (c as int + 32) as char else c
  }

  /**
   * ASCII lower-casing: same length, no upper-case ASCII letter left, and
   * every other character unchanged.
   */
  function Lower(s: string): (r: string)
    ensures |r| == |s|
    ensures forall k :: 0 <= k < |s| ==> !('A' <= r[k] <= 'Z')
    ensures forall k :: 0 <= k < |s| && !('A' <= s[k] <= 'Z') ==> r[k] == s[k]
  {
    seq(|s|, k requires 0 <= k < |s| => LowerChar(s[k]))
  }

  /** Lower-casing is idempotent and leaves no upper-case ASCII letter. */
  lemma LowerIdempotent(s: string)
    ensures Lower(Lower(s)) == Lower(s)
    ensures forall k :: 0 <= k < |s| ==> !('A' <= Lower(s)[k] <= 'Z')
  {
  }

  /** `needle` occurs in `hay` starting at index `i`. */
  predicate OccursAt(hay: string, needle: string, i: int) {
    0 <= i <= |hay| - |needle| && hay[i..i + |needle|] == needle
  }

  /** `needle` occurs in `hay` as a contiguous substring. */
  predicate Contains(hay: string, needle: string) {
    exists i :: 0 <= i <= |hay| - |needle| && OccursAt(hay, needle, i)
  }

  /**
   * Case-insensitive substring test (`str.contains(needle, case=False)`):
   * the empty needle and every exact occurrence match.
   */
  predicate ContainsIgnoreCase(hay: string, needle: string)
    ensures needle == [] ==> ContainsIgnoreCase(hay, needle)
    ensures Contains(hay, needle) ==> ContainsIgnoreCase(hay, needle)
  {
    ExactMatchLowered(hay, needle);
    Contains(Lower(hay), Lower(needle))
  }

  /** An exact occurrence, or an empty needle, survives lower-casing both strings. */
  lemma ExactMatchLowered(hay: string, needle: string)
    ensures needle == [] ==> Contains(Lower(hay), Lower(needle))
    ensures Contains(hay, needle) ==> Contains(Lower(hay), Lower(needle))
  {
    if needle == [] {
      assert OccursAt(Lower(hay), Lower(needle), 0);
    }
    if Contains(hay, needle) {
      var i :| 0 <= i <= |hay| - |needle| && OccursAt(hay, needle, i);
      var lh, ln := Lower(hay), Lower(needle);
      assert lh[i..i + |needle|] == ln by {
        forall k | 0 <= k < |needle| ensures lh[i..i + |needle|][k] == ln[k] {
          assert hay[i + k] == needle[k];
        }
      }
      assert OccursAt(lh, ln, i);
    }
  }

  /** The test does not depend on the case of either string. */
  lemma ContainsIgnoreCaseLower(hay: string, needle: string)
    ensures ContainsIgnoreCase(hay, needle) == ContainsIgnoreCase(Lower(hay), needle)
    ensures ContainsIgnoreCase(hay, needle) == ContainsIgnoreCase(hay, Lower(needle))
  {
    LowerIdempotent(hay);
    LowerIdempotent(needle);
  }
}
