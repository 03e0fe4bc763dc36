/**
 * Python's ordering of strings (lexicographic by code point) and
 * `sorted(set(...))`: the unique strictly ascending listing of a set.
 */
module Order {
  import opened Text

  /**
   * Python's `a < b` on strings: compared character by character, a
   * proper prefix sorting first.
   */
  predicate Less(a: string, b: string)
    ensures |a| < |b| && a == b[..|a|] ==> Less(a, b)
    decreases |a|
  {
    if a == [] then b != []
    else if b == [] then false
    else if a[0] != b[0] then a[0] < b[0]
    else Less(a[1..], b[1..])
  }

  /** `b` extends `a` by at least one character. */
  predicate ProperPrefix(a: string, b: string) {
    |a| < |b| && a == b[..|a|]
  }

  /** `a` and `b` first differ at index `k`, where `a` has the smaller character. */
  predicate SmallerAt(a: string, b: string, k: int) {
    0 <= k < |a| && k < |b| && a[..k] == b[..k] && a[k] < b[k]
  }

  /**
   * The recursive comparison agrees with the textbook lexicographic order:
   * a proper prefix, or a smaller character at the first difference.
   */
  lemma {:induction false} LessLexicographic(a: string, b: string)
    ensures Less(a, b) <==> ProperPrefix(a, b) || exists k :: SmallerAt(a, b, k)
    decreases |a|
  {
    if a == [] || b == [] {
      assert forall k :: !SmallerAt(a, b, k);
    } else if a[0] != b[0] {
      assert !ProperPrefix(a, b);
      assert forall k :: SmallerAt(a, b, k) ==> k == 0;
      if a[0] < b[0] { assert SmallerAt(a, b, 0); }
    } else {
      var a', b' := a[1..], b[1..];
      LessLexicographic(a', b');
      assert a == [a[0]] + a' && b == [b[0]] + b';
      assert ProperPrefix(a, b) <==> ProperPrefix(a', b') by {
        if |a| < |b| { assert b[..|a|] == [b[0]] + b'[..|a'|]; }
      }
      if k :| SmallerAt(a, b, k) {
        assert k > 0;
        assert a'[..k - 1] == a[..k][1..] && b'[..k - 1] == b[..k][1..];
        assert SmallerAt(a', b', k - 1);
      }
      if k :| SmallerAt(a', b', k) {
        assert a[..k + 1] == [a[0]] + a'[..k] && b[..k + 1] == [b[0]] + b'[..k];
        assert SmallerAt(a, b, k + 1);
      }
    }
  }

  lemma {:induction false} LessIrreflexive(a: string)
    ensures !Less(a, a)
    decreases |a|
  {
    if a != [] { LessIrreflexive(a[1..]); }
  }

  lemma {:induction false} LessAsymmetric(a: string, b: string)
    requires Less(a, b)
    ensures !Less(b, a)
    decreases |a|
  {
    if a != [] && b != [] && a[0] == b[0] { LessAsymmetric(a[1..], b[1..]); }
  }

  lemma {:induction false} LessTransitive(a: string, b: string, c: string)
    requires Less(a, b) && Less(b, c)
    ensures Less(a, c)
    decreases |a|
  {
    if a != [] && a[0] == b[0] && b[0] == c[0] {
      LessTransitive(a[1..], b[1..], c[1..]);
    }
  }

  lemma {:induction false} LessTotal(a: string, b: string)
    requires a != b
    ensures Less(a, b) || Less(b, a)
    decreases |a|
  {
    if a != [] && b != [] && a[0] == b[0] {
      assert a == [a[0]] + a[1..] && b == [b[0]] + b[1..];
      LessTotal(a[1..], b[1..]);
    }
  }

  /** Sorted ascending without repetitions. */
  predicate StrictlyAscending(xs: seq<string>) {
    forall i, j :: 0 <= i < j < |xs| ==> Less(xs[i], xs[j])
  }

  /** Adds `x` to a strictly ascending sequence, keeping it so. */
  function InsertAscending(x: string, xs: seq<string>): (r: seq<string>)
    requires StrictlyAscending(xs)
    ensures StrictlyAscending(r)
    ensures Elems(r) == Elems(xs) + {x}
    decreases |xs|
  {
    if xs == [] then [x]
    else if x == xs[0] then xs
    else if Less(x, xs[0]) then
      LessChain(x, xs);
      [x] + xs
    else
      LessTotal(x, xs[0]);
      var t := InsertAscending(x, xs[1..]);
      assert Elems(xs) == {xs[0]} + Elems(xs[1..]);
      assert forall y :: y in t ==> Less(xs[0], y) by {
        forall y | y in t ensures Less(xs[0], y) {
          assert y in Elems(t);
          if y != x {
            assert y in Elems(xs[1..]);
            var k :| 0 <= k < |xs| - 1 && xs[1..][k] == y;
            assert xs[k + 1] == y;
          }
        }
      }
      assert Elems([xs[0]] + t) == {xs[0]} + Elems(t);
      [xs[0]] + t
  }

  lemma LessChain(x: string, xs: seq<string>)
    requires StrictlyAscending(xs) && xs != [] && Less(x, xs[0])
    ensures StrictlyAscending([x] + xs)
  {
    forall j | 0 <= j < |xs| ensures Less(x, xs[j]) {
      if j > 0 { LessTransitive(x, xs[0], xs[j]); }
    }
  }

  /** `sorted(set(xs))`: the distinct elements of `xs`, ascending. */
  function SortedDistinct(xs: seq<string>): (r: seq<string>)
    ensures StrictlyAscending(r)
    ensures Elems(r) == Elems(xs)
    decreases |xs|
  {
    if xs == [] then []
    else
      var n := |xs| - 1;
      assert Elems(xs) == Elems(xs[..n]) + {xs[n]};
      InsertAscending(xs[n], SortedDistinct(xs[..n]))
  }

  /** A set has exactly one strictly ascending listing. */
  lemma {:induction false} AscendingUnique(a: seq<string>, b: seq<string>)
    requires StrictlyAscending(a) && StrictlyAscending(b)
    requires Elems(a) == Elems(b)
    ensures a == b
    decreases |a|
  {
    AscendingNoDups(a);
    AscendingNoDups(b);
    NoDupsCard(a);
    NoDupsCard(b);
    if a != [] {
      // the least element of either is the least element of the set
      if a[0] != b[0] {
        assert b[0] in Elems(a);
        assert a[0] in Elems(b);
        var i :| 0 <= i < |a| && a[i] == b[0];
        var j :| 0 <= j < |b| && b[j] == a[0];
        assert Less(a[0], b[0]);
        assert Less(b[0], a[0]);
        LessAsymmetric(a[0], b[0]);
      }
      assert Elems(a[1..]) == Elems(a) - {a[0]} by {
        forall y | y in a[1..] ensures y != a[0] { LessIrreflexiveAt(a, y); }
      }
      assert Elems(b[1..]) == Elems(b) - {b[0]} by {
        forall y | y in b[1..] ensures y != b[0] { LessIrreflexiveAt(b, y); }
      }
      AscendingUnique(a[1..], b[1..]);
      assert a == [a[0]] + a[1..] && b == [b[0]] + b[1..];
    }
  }

  lemma AscendingNoDups(a: seq<string>)
    requires StrictlyAscending(a)
    ensures NoDups(a)
  {
    forall i, j | 0 <= i < j < |a| ensures a[i] != a[j] {
      LessIrreflexive(a[i]);
    }
  }

  lemma LessIrreflexiveAt(a: seq<string>, y: string)
    requires StrictlyAscending(a) && a != [] && y in a[1..]
    ensures y != a[0]
  {
    var k :| 1 <= k < |a| && a[k] == y;
    assert Less(a[0], a[k]);
    LessIrreflexive(a[0]);
  }
}
