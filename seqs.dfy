/**
 * Sequence operations the registries are built from: JavaScript's
 * `Array.prototype.filter`, and "no two elements share a key".
 */
module Seqs {

  /** The elements of `s` that satisfy `keep`, in their original order. */
  function Filter<T(!new)>(s: seq<T>, keep: T -> bool): (r: seq<T>)
    ensures |r| <= |s|
    ensures forall x :: x in r <==> x in s && keep(x)
  {
    if s == [] then []
    else
      assert s == [s[0]] + s[1..];
      if keep(s[0]) then [s[0]] + Filter(s[1..], keep) else Filter(s[1..], keep)
  }

  /** Filtering a concatenation filters each part in place: the survivors keep their relative order. */
  lemma {:induction false} FilterAppend<T(!new)>(a: seq<T>, b: seq<T>, keep: T -> bool)
    ensures Filter(a + b, keep) == Filter(a, keep) + Filter(b, keep)
  {
    if a == [] {
      assert a + b == b;
    } else {
      assert (a + b)[0] == a[0];
      assert (a + b)[1..] == a[1..] + b;
      FilterAppend(a[1..], b, keep);
    }
  }

  /** When every element survives, filtering changes nothing. */
  lemma {:induction false} FilterKeepsAll<T(!new)>(s: seq<T>, keep: T -> bool)
    requires forall i :: 0 <= i < |s| ==> keep(s[i])
    ensures Filter(s, keep) == s
  {
    if s != [] {
      FilterKeepsAll(s[1..], keep);
    }
  }

  /** No two positions of `s` carry the same key. */
  predicate DistinctBy<T, K(==)>(s: seq<T>, key: T -> K)
  {
    forall i, j :: 0 <= i < j < |s| ==> key(s[i]) != key(s[j])
  }

  /** The identity, used as the key of "no duplicates". */
  function Itself<T>(x: T): T { x }

  /** No element occurs twice. */
  predicate NoDuplicates<T(==)>(s: seq<T>)
  {
    DistinctBy(s, Itself)
  }

  /** Prepending an element whose key no element of `t` has keeps the keys distinct. */
  lemma ConsDistinctBy<T, K>(x: T, t: seq<T>, key: T -> K)
    requires DistinctBy(t, key)
    requires forall y :: y in t ==> key(y) != key(x)
    ensures DistinctBy([x] + t, key)
  {
    var s := [x] + t;
    forall i, j | 0 <= i < j < |s| ensures key(s[i]) != key(s[j]) {
      assert s[j] == t[j - 1];
      if i > 0 {
        assert s[i] == t[i - 1];
      } else {
        assert t[j - 1] in t;
      }
    }
  }

  /** Appending an element whose key no element of `t` has keeps the keys distinct. */
  lemma SnocDistinctBy<T, K>(t: seq<T>, x: T, key: T -> K)
    requires DistinctBy(t, key)
    requires forall y :: y in t ==> key(y) != key(x)
    ensures DistinctBy(t + [x], key)
  {
    var s := t + [x];
    forall i, j | 0 <= i < j < |s| ensures key(s[i]) != key(s[j]) {
      assert s[i] == t[i];
      if j < |t| {
        assert s[j] == t[j];
      } else {
        assert t[i] in t;
      }
    }
  }

  /** Filtering keeps the keys of the survivors distinct. */
  lemma {:induction false} FilterDistinctBy<T(!new), K>(s: seq<T>, keep: T -> bool, key: T -> K)
    requires DistinctBy(s, key)
    ensures DistinctBy(Filter(s, keep), key)
  {
    if s != [] {
      var rest := s[1..];
      assert DistinctBy(rest, key) by {
        forall i, j | 0 <= i < j < |rest| ensures key(rest[i]) != key(rest[j]) {
          assert rest[i] == s[i + 1] && rest[j] == s[j + 1];
        }
      }
      FilterDistinctBy(rest, keep, key);
      if keep(s[0]) {
        forall y | y in Filter(rest, keep) ensures key(y) != key(s[0]) {
          var k :| 0 <= k < |rest| && rest[k] == y;
          assert s[k + 1] == y;
        }
        ConsDistinctBy(s[0], Filter(rest, keep), key);
      }
    }
  }
}
