/**
 String order, stable sorting by a string key, de-duplication and joining: the standard-library calls
 the source leans on, with the facts the proofs need.
 */
module Strings {

  /** Character-wise order, a prefix first; `compareCodePoints(a, b) <= 0`. */
  predicate Le(a: string, b: string) {
    a == [] || (b != [] && (a[0] < b[0] || (a[0] == b[0] && Le(a[1..], b[1..]))))
  }

  lemma LeTotal(a: string, b: string)
    ensures Le(a, b) || Le(b, a)
  {
  }

  lemma {:induction false} LeAntisymmetric(a: string, b: string)
    requires Le(a, b) && Le(b, a)
    ensures a == b
  {
    if a != [] {
      LeAntisymmetric(a[1..], b[1..]);
      assert a == [a[0]] + a[1..] && b == [b[0]] + b[1..];
    }
  }

  lemma {:induction false} LeTransitive(a: string, b: string, c: string)
    requires Le(a, b) && Le(b, c)
    ensures Le(a, c)
  {
    if a != [] && a[0] == b[0] == c[0] {
      LeTransitive(a[1..], b[1..], c[1..]);
    }
  }

  // ---- Stable sort by key ----

  function Insert<T>(x: T, sorted: seq<T>, key: T -> string): (r: seq<T>)
    ensures multiset(r) == multiset{x} + multiset(sorted)
    ensures r != []
  {
    if sorted == [] then [x]
    else if Le(key(x), key(sorted[0])) then
      [x] + sorted
    else
      assert sorted == [sorted[0]] + sorted[1..];
      [sorted[0]] + Insert(x, sorted[1..], key)
  }

  function SortBy<T>(xs: seq<T>, key: T -> string): (r: seq<T>)
    ensures multiset(r) == multiset(xs)
  {
    if xs == [] then []
    else
      assert xs == [xs[0]] + xs[1..];
      Insert(xs[0], SortBy(xs[1..], key), key)
  }

  ghost predicate DistinctKeys<T>(xs: seq<T>, key: T -> string) {
    forall i, j :: 0 <= i < j < |xs| ==> key(xs[i]) != key(xs[j])
  }

  ghost predicate StrictlySorted<T>(xs: seq<T>, key: T -> string) {
    forall i, j :: 0 <= i < j < |xs| ==> Le(key(xs[i]), key(xs[j])) && key(xs[i]) != key(xs[j])
  }

  lemma SameElements<T(!new)>(a: seq<T>, b: seq<T>)
    requires multiset(a) == multiset(b)
    ensures |a| == |b| && forall x :: x in a <==> x in b
  {
    assert |multiset(a)| == |a| && |multiset(b)| == |b|;
    forall x ensures x in a <==> x in b {
      assert x in multiset(a) <==> x in multiset(b);
    }
  }

  lemma {:induction false} InsertSorted<T(!new)>(x: T, sorted: seq<T>, key: T -> string)
    requires StrictlySorted(sorted, key)
    requires forall y :: y in sorted ==> key(y) != key(x)
    ensures StrictlySorted(Insert(x, sorted, key), key)
  {
    if sorted == [] {
    } else if Le(key(x), key(sorted[0])) {
      forall j | 0 <= j < |sorted| ensures Le(key(x), key(sorted[j])) {
        if j > 0 {
          LeTransitive(key(x), key(sorted[0]), key(sorted[j]));
        }
      }
    } else {
      LeTotal(key(x), key(sorted[0]));
      var rest := Insert(x, sorted[1..], key);
      InsertSorted(x, sorted[1..], key);
      forall j | 0 <= j < |rest| ensures Le(key(sorted[0]), key(rest[j])) && key(sorted[0]) != key(rest[j]) {
        assert rest[j] in multiset(rest);
        assert rest[j] == x || rest[j] in multiset(sorted[1..]);
      }
    }
  }

  lemma {:induction false} SortStrict<T(!new)>(xs: seq<T>, key: T -> string)
    requires DistinctKeys(xs, key)
    ensures StrictlySorted(SortBy(xs, key), key)
  {
    if xs != [] {
      SortStrict(xs[1..], key);
      SameElements(xs[1..], SortBy(xs[1..], key));
      forall y | y in SortBy(xs[1..], key) ensures key(y) != key(xs[0]) {
        assert y in xs[1..];
      }
      InsertSorted(xs[0], SortBy(xs[1..], key), key);
    }
  }

  /** A strictly sorted sequence is determined by its elements. */
  lemma {:induction false} StrictUnique<T(!new)>(a: seq<T>, b: seq<T>, key: T -> string)
    requires StrictlySorted(a, key) && StrictlySorted(b, key)
    requires forall x :: x in a <==> x in b
    ensures a == b
  {
    if a != [] {
      assert a[0] in b;
    }
    if b != [] {
      assert b[0] in a;
      assert a[0] in b;
      var i :| 0 <= i < |a| && a[i] == b[0];
      var j :| 0 <= j < |b| && b[j] == a[0];
      if i > 0 && j > 0 {
        LeAntisymmetric(key(a[0]), key(b[0]));
      }
      assert a[0] == b[0];
      forall x ensures x in a[1..] <==> x in b[1..] {
        if x in a[1..] {
          var k :| 1 <= k < |a| && a[k] == x;
          assert x in b && key(x) != key(a[0]);
        }
        if x in b[1..] {
          var k :| 1 <= k < |b| && b[k] == x;
          assert x in a && key(x) != key(b[0]);
        }
      }
      StrictUnique(a[1..], b[1..], key);
    }
  }

  /** Sorting distinct keys forgets the input order. */
  lemma SortForgetsOrder<T(!new)>(xs: seq<T>, ys: seq<T>, key: T -> string)
    requires DistinctKeys(xs, key) && DistinctKeys(ys, key)
    requires forall x :: x in xs <==> x in ys
    ensures SortBy(xs, key) == SortBy(ys, key)
  {
    SortStrict(xs, key);
    SortStrict(ys, key);
    SameElements(xs, SortBy(xs, key));
    SameElements(ys, SortBy(ys, key));
    StrictUnique(SortBy(xs, key), SortBy(ys, key), key);
  }

  // ---- De-duplication, flattening, joining ----

  ghost predicate NoRepeats<T>(xs: seq<T>) {
    forall i, j :: 0 <= i < j < |xs| ==> xs[i] != xs[j]
  }

  /** The distinct values in order of first occurrence. */
  function Deduped<T(==,!new)>(values: seq<T>): (r: seq<T>)
    ensures NoRepeats(r)
    ensures forall x :: x in r <==> x in values
    ensures |r| <= |values| && (values != [] ==> r != [])
  {
    if values == [] then []
    else
      var n := |values| - 1;
      assert values == values[..n] + [values[n]];
      var earlier := Deduped(values[..n]);
      if values[n] in earlier then earlier else earlier + [values[n]]
  }

  /** Wherever a later result occurs, an earlier one has occurred before. */
  lemma {:induction false} DedupedInOrder<T(!new)>(values: seq<T>, i: nat, j: nat, n: nat)
    requires i < j < |Deduped(values)| && n < |values| && values[n] == Deduped(values)[j]
    ensures exists m :: 0 <= m < n && values[m] == Deduped(values)[i]
  {
    var last := |values| - 1;
    var earlier := Deduped(values[..last]);
    assert values == values[..last] + [values[last]];
    if j < |earlier| && n < last {
      DedupedInOrder(values[..last], i, j, n);
    } else if j < |earlier| {
      assert earlier[j] in values[..last];
      var k :| 0 <= k < last && values[k] == earlier[j];
      DedupedInOrder(values[..last], i, j, k);
    } else {
      assert forall k :: 0 <= k < last ==> values[k] in values[..last];
      assert earlier[i] in values[..last];
    }
  }

  method Dedupe<T(==,!new)>(values: seq<T>) returns (out: seq<T>)
    ensures out == Deduped(values)
  {
    var seen := {};
    out := [];
    for k := 0 to |values|
      invariant forall x :: x in seen <==> x in out
      invariant out == Deduped(values[..k])
    {
      assert values[..k + 1][..k] == values[..k];
      if values[k] !in seen {
        seen := seen + {values[k]};
        out := out + [values[k]];
      }
    }
    assert values[..|values|] == values;
  }

  function Flatten<T(!new)>(parts: seq<seq<T>>): (r: seq<T>)
    ensures forall x :: x in r <==> exists i :: 0 <= i < |parts| && x in parts[i]
  {
    if parts == [] then []
    else
      var n := |parts| - 1;
      assert parts == parts[..n] + [parts[n]];
      var earlier := Flatten(parts[..n]);
      assert forall x :: x in earlier <==> exists i :: 0 <= i < n && x in parts[..n][i];
      earlier + parts[n]
  }

  function Join(parts: seq<string>, separator: string): string {
    if parts == [] then ""
    else if |parts| == 1 then parts[0]
    else parts[0] + separator + Join(parts[1..], separator)
  }
}
