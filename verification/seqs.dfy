/**
 * Row selection: the boolean-mask indexing `df[mask]` that the dashboard
 * uses for both of its filters keeps the rows whose mask entry is true,
 * in their original order.
 */
module Seqs {

  /** The elements of `s` that satisfy `p`, in their original order. */
  function Keep<T>(s: seq<T>, p: T -> bool): (r: seq<T>)
    ensures |r| <= |s|
    decreases |s|
  {
    if s == [] then []
    else
      var n := |s| - 1;
      var q := Keep(s[..n], p);
      if p(s[n]) then q + [s[n]] else q
  }

  /** Selection keeps exactly the elements that satisfy the mask. */
  lemma {:induction false} KeepMembers<T(!new)>(s: seq<T>, p: T -> bool)
    ensures forall x :: x in Keep(s, p) <==> x in s && p(x)
    decreases |s|
  {
    if s != [] {
      var n := |s| - 1;
      KeepMembers(s[..n], p);
      assert s == s[..n] + [s[n]];
    }
  }

  /** Each selected value is kept as often as it occurs; the others not at all. */
  lemma {:induction false} KeepMultiplicity<T(!new)>(s: seq<T>, p: T -> bool, x: T)
    ensures multiset(Keep(s, p))[x] == if p(x) then multiset(s)[x] else 0
    decreases |s|
  {
    if s != [] {
      var n := |s| - 1;
      KeepMultiplicity(s[..n], p, x);
      assert s == s[..n] + [s[n]];
    }
  }

  /** Indices `< n` in strictly increasing order. */
  predicate IncreasingIndices(idx: seq<nat>, n: nat) {
    && (forall k :: 0 <= k < |idx| ==> idx[k] < n)
    && (forall k, l :: 0 <= k < l < |idx| ==> idx[k] < idx[l])
  }

  /**
   * The positions of `s` whose element satisfies `p`, ascending: `Keep`
   * takes exactly these positions, one after the other.
   */
  function KeptIndices<T(!new)>(s: seq<T>, p: T -> bool): (idx: seq<nat>)
    ensures IncreasingIndices(idx, |s|)
    ensures forall i :: i in idx <==> 0 <= i < |s| && p(s[i])
    decreases |s|
  {
    if s == [] then []
    else
      var n := |s| - 1;
      var q := KeptIndices(s[..n], p);
      if p(s[n]) then q + [n] else q
  }

  /**
   * Selection keeps exactly the satisfying positions, in their original
   * order: the k-th kept element is the element at the k-th such position.
   */
  lemma {:induction false} KeepOrder<T(!new)>(s: seq<T>, p: T -> bool)
    ensures |KeptIndices(s, p)| == |Keep(s, p)|
    ensures forall k :: 0 <= k < |Keep(s, p)| ==> Keep(s, p)[k] == s[KeptIndices(s, p)[k]]
    decreases |s|
  {
    if s != [] {
      var n := |s| - 1;
      KeepOrder(s[..n], p);
      var q := KeptIndices(s[..n], p);
      var kept := Keep(s[..n], p);
      var idx := if p(s[n]) then q + [n] else q;
      var r := if p(s[n]) then kept + [s[n]] else kept;
      assert KeptIndices(s, p) == idx;
      assert Keep(s, p) == r;
      forall k | 0 <= k < |r| ensures r[k] == s[idx[k]] {
        if k < |q| {
          assert r[k] == kept[k] == s[..n][q[k]];
          assert q[k] < n;
        }
      }
    }
  }

  /** Selecting from a sequence extended by one element. */
  lemma KeepSnoc<T>(s: seq<T>, x: T, p: T -> bool)
    ensures Keep(s + [x], p) == if p(x) then Keep(s, p) + [x] else Keep(s, p)
  {
    var t := s + [x];
    assert t[..|s|] == s;
  }

  /** Selection distributes over concatenation. */
  lemma {:induction false} KeepAppend<T>(a: seq<T>, b: seq<T>, p: T -> bool)
    ensures Keep(a + b, p) == Keep(a, p) + Keep(b, p)
    decreases |b|
  {
    if b == [] {
      assert a + b == a;
    } else {
      var front, last := b[..|b| - 1], b[|b| - 1];
      var ka, kf := Keep(a, p), Keep(front, p);
      assert b == front + [last];
      assert a + b == (a + front) + [last];
      calc {
        Keep(a + b, p);
        { KeepSnoc(a + front, last, p); }
        if p(last) then Keep(a + front, p) + [last] else Keep(a + front, p);
        { KeepAppend(a, front, p); }
        if p(last) then (ka + kf) + [last] else ka + kf;
        { assert (ka + kf) + [last] == ka + (kf + [last]); }
        ka + (if p(last) then kf + [last] else kf);
        { KeepSnoc(front, last, p); }
        ka + Keep(b, p);
      }
    }
  }

  /** When every element is selected the sequence is unchanged. */
  lemma {:induction false} KeepEvery<T(!new)>(s: seq<T>, p: T -> bool)
    requires forall x :: x in s ==> p(x)
    ensures Keep(s, p) == s
    decreases |s|
  {
    if s != [] {
      var n := |s| - 1;
      KeepEvery(s[..n], p);
      assert s == s[..n] + [s[n]];
    }
  }

  /** Selecting nothing gives the empty sequence. */
  lemma KeepNone<T(!new)>(s: seq<T>, p: T -> bool)
    requires forall x :: x in s ==> !p(x)
    ensures Keep(s, p) == []
  {
  }

  /** Selections by two masks that agree on every element are equal. */
  lemma {:induction false} KeepSame<T(!new)>(s: seq<T>, p: T -> bool, q: T -> bool)
    requires forall x :: x in s ==> p(x) == q(x)
    ensures Keep(s, p) == Keep(s, q)
    decreases |s|
  {
    if s != [] {
      var n := |s| - 1;
      assert forall x :: x in s[..n] ==> x in s;
      KeepSame(s[..n], p, q);
    }
  }

  /** A non-empty sequence is its front followed by its last element. */
  lemma FrontLast<T>(s: seq<T>)
    requires s != []
    ensures s == s[..|s| - 1] + [s[|s| - 1]]
  {
  }
}
