/** Shared datatypes and the few collection facts more than one component needs. */
module Prelude {

  datatype Option<+T> = None | Some(value: T)

  datatype Result<+T, +E> = Ok(value: T) | Err(error: E)

  function Min(a: int, b: int): int {
    if a <= b then a else b
  }

  function Sum(amounts: seq<int>): (total: int)
    ensures (forall i :: 0 <= i < |amounts| ==> amounts[i] >= 0) ==> total >= 0
  {
    if amounts == [] then 0 else Sum(amounts[..|amounts| - 1]) + amounts[|amounts| - 1]
  }

  function ToSet<T>(s: seq<T>): set<T> {
    set x | x in s
  }

  /** No element occurs twice. */
  ghost predicate Distinct<T>(s: seq<T>) {
    forall i :: 0 <= i < |s| ==> s[i] !in s[..i]
  }

  lemma {:induction false} ToSetConcat<T>(a: seq<T>, b: seq<T>)
    ensures ToSet(a + b) == ToSet(a) + ToSet(b)
  {
  }

  lemma {:induction false} DistinctConcat<T>(a: seq<T>, b: seq<T>)
    requires Distinct(a) && Distinct(b) && ToSet(a) !! ToSet(b)
    ensures Distinct(a + b)
  {
    var s := a + b;
    forall i | 0 <= i < |s| ensures s[i] !in s[..i] {
      if i < |a| {
        assert s[..i] == a[..i];
      } else {
        assert s[..i] == a + b[..i - |a|];
        assert s[i] == b[i - |a|] && s[i] in ToSet(b);
      }
    }
  }

  /** The first occurrences, in order. */
  function Deduplicated<T(==)>(s: seq<T>): seq<T> {
    if s == [] then []
    else
      var init, last := Deduplicated(s[..|s| - 1]), s[|s| - 1];
      if last in init then init else init + [last]
  }

  lemma {:induction false} DeduplicatedMeans<T>(s: seq<T>)
    ensures Distinct(Deduplicated(s)) && ToSet(Deduplicated(s)) == ToSet(s)
  {
    if s != [] {
      var init, last := s[..|s| - 1], s[|s| - 1];
      DeduplicatedMeans(init);
      assert s == init + [last];
      ToSetConcat(init, [last]);
      ToSetConcat(Deduplicated(init), [last]);
      if last !in Deduplicated(init) {
        DistinctConcat(Deduplicated(init), [last]);
      }
    }
  }

  /** One of the list comes before another when it occurs before that one does at all. */
  ghost predicate Precedes<T>(s: seq<T>, a: T, b: T) {
    exists k :: 0 <= k < |s| && s[k] == a && b !in s[..k + 1]
  }

  /** What is left stands in the order of first occurrences. */
  lemma {:induction false} DeduplicatedOrder<T>(s: seq<T>, i: nat, j: nat)
    requires i < j < |Deduplicated(s)|
    ensures Precedes(s, Deduplicated(s)[i], Deduplicated(s)[j])
  {
    var init, last := s[..|s| - 1], s[|s| - 1];
    DeduplicatedMeans(init);
    var a, b := Deduplicated(s)[i], Deduplicated(s)[j];
    var k: nat;
    if j < |Deduplicated(init)| {
      DeduplicatedOrder(init, i, j);
      k :| 0 <= k < |init| && init[k] == a && b !in init[..k + 1];
    } else {
      assert a in Deduplicated(init) && a in ToSet(init) && b !in ToSet(init);
      k :| 0 <= k < |init| && init[k] == a;
    }
    assert s[..k + 1] == init[..k + 1];
  }

  lemma {:induction false} SubsetIsSmaller<T>(a: set<T>, b: set<T>)
    requires a <= b
    ensures |a| <= |b|
  {
    assert b == a + (b - a);
  }

  lemma {:induction false} ProperSubsetIsSmaller<T>(a: set<T>, b: set<T>)
    requires a < b
    ensures |a| < |b|
  {
    assert b - a != {};
    var x :| x in b - a;
    SubsetIsSmaller(a, b - {x});
  }

  lemma {:induction false} ConcatAssociates<T>(a: seq<T>, b: seq<T>, c: seq<T>)
    ensures (a + b) + c == a + (b + c)
  {
  }

  lemma {:induction false} MapUnionAssociates<K, V>(a: map<K, V>, b: map<K, V>, c: map<K, V>)
    ensures (a + b) + c == a + (b + c)
  {
  }
}
