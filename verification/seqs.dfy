/** `Array.prototype.filter`, `findIndex` and `flatMap`, and the order they keep. */
module Seqs {
  import opened Base

  /** `r` is `s` with some elements left out, the rest in their order. */
  predicate IsSubsequence<T(==)>(r: seq<T>, s: seq<T>)
  {
    r == [] || (s != [] && ((r[0] == s[0] && IsSubsequence(r[1..], s[1..])) || IsSubsequence(r, s[1..])))
  }

  /** `s.filter(p)`: the elements satisfying `p`, in their order (see `FilterKeeps` and `FilterSubsequence`). */
  function Filter<T(==)>(s: seq<T>, p: T -> bool): (r: seq<T>)
    ensures |r| <= |s|
  {
    if s == [] then []
    else if p(s[0]) then [s[0]] + Filter(s[1..], p)
    else Filter(s[1..], p)
  }

  /** The filtered list holds exactly the elements of `s` that satisfy `p`. */
  lemma {:induction false} FilterKeeps<T>(s: seq<T>, p: T -> bool)
    ensures forall k | 0 <= k < |Filter(s, p)| :: p(Filter(s, p)[k]) && Filter(s, p)[k] in s
    ensures forall k | 0 <= k < |s| :: p(s[k]) ==> s[k] in Filter(s, p)
  {
    if s != [] {
      FilterKeeps(s[1..], p);
      var r, t := Filter(s, p), Filter(s[1..], p);
      forall k | 1 <= k < |s| ensures s[k] == s[1..][k - 1] { }
      if p(s[0]) {
        assert r == [s[0]] + t;
        forall k | 1 <= k < |r| ensures r[k] == t[k - 1] { }
      } else {
        assert r == t;
      }
    }
  }

  /** Filtering keeps the order: the filtered list is a subsequence. */
  lemma {:induction false} FilterSubsequence<T>(s: seq<T>, p: T -> bool)
    ensures IsSubsequence(Filter(s, p), s)
  {
    if s != [] {
      FilterSubsequence(s[1..], p);
      var r := Filter(s, p);
      if p(s[0]) {
        assert r[0] == s[0] && r[1..] == Filter(s[1..], p);
      }
    }
  }

  /** Filtering a list none of whose elements is dropped gives the list back. */
  lemma {:induction false} FilterAll<T>(s: seq<T>, p: T -> bool)
    requires forall k | 0 <= k < |s| :: p(s[k])
    ensures Filter(s, p) == s
  {
    if s != [] {
      FilterAll(s[1..], p);
    }
  }

  /** Filtering distributes over concatenation. */
  lemma {:induction false} FilterAppend<T>(a: seq<T>, b: seq<T>, p: T -> bool)
    ensures Filter(a + b, p) == Filter(a, p) + Filter(b, p)
  {
    if a == [] {
      assert a + b == b;
    } else {
      assert (a + b)[1..] == a[1..] + b;
      FilterAppend(a[1..], b, p);
    }
  }

  /** `xs.findIndex(p)`, as an option: the first position whose element satisfies `p`. */
  function FirstIndex<T>(xs: seq<T>, p: T -> bool): (k: Option<nat>)
    ensures k.Some? ==> k.value < |xs| && p(xs[k.value])
    ensures k.Some? ==> forall j | 0 <= j < k.value :: !p(xs[j])
    ensures k.None? <==> forall j | 0 <= j < |xs| :: !p(xs[j])
  {
    if xs == [] then None
    else if p(xs[0]) then Some(0)
    else
      var tail := xs[1..];
      assert forall j | 1 <= j < |xs| :: xs[j] == tail[j - 1];
      match FirstIndex(tail, p)
      case None => None
      case Some(k) => Some(k + 1)
  }

  /** Two tests that agree on every element find the same first position. */
  lemma {:induction false} FirstIndexCongruent<T>(xs: seq<T>, p: T -> bool, q: T -> bool)
    requires forall j | 0 <= j < |xs| :: p(xs[j]) == q(xs[j])
    ensures FirstIndex(xs, p) == FirstIndex(xs, q)
  {
    if xs != [] && !p(xs[0]) {
      var tail := xs[1..];
      assert forall j | 0 <= j < |tail| :: tail[j] == xs[j + 1];
      FirstIndexCongruent(tail, p, q);
    }
  }

  /** `xs.flatMap(f)`: the lists `f` gives for the elements, one after another in their order. */
  function FlatMap<T, U>(xs: seq<T>, f: T -> seq<U>): seq<U>
  {
    if xs == [] then [] else FlatMap(xs[..|xs| - 1], f) + f(xs[|xs| - 1])
  }

  /**
   * Where an element's list lands: item `j` of the list of element `i` comes right after the
   * lists of the elements before `i`.
   */
  lemma {:induction false} FlatMapLayout<T, U>(xs: seq<T>, f: T -> seq<U>, i: nat, j: nat)
    requires i < |xs| && j < |f(xs[i])|
    ensures |FlatMap(xs[..i], f)| + j < |FlatMap(xs, f)|
    ensures FlatMap(xs, f)[|FlatMap(xs[..i], f)| + j] == f(xs[i])[j]
  {
    var init := xs[..|xs| - 1];
    assert FlatMap(xs, f) == FlatMap(init, f) + f(xs[|xs| - 1]);
    if i < |init| {
      assert xs[..i] == init[..i];
      assert xs[i] == init[i];
      FlatMapLayout(init, f, i, j);
    } else {
      assert xs[..i] == init;
    }
  }

  /** Lists of the same lengths flatten to the same length. */
  lemma {:induction false} FlatMapSameLength<T, U, V>(xs: seq<T>, f: T -> seq<U>, g: T -> seq<V>)
    requires forall k | 0 <= k < |xs| :: |f(xs[k])| == |g(xs[k])|
    ensures |FlatMap(xs, f)| == |FlatMap(xs, g)|
  {
    if xs != [] {
      var init := xs[..|xs| - 1];
      assert forall k | 0 <= k < |init| :: init[k] == xs[k];
      FlatMapSameLength(init, f, g);
    }
  }
}
