/** What several components share: options, clocks, bounds, and sorting. */
module Wrappers {

  datatype Option<T> = None | Some(value: T)

  const NANOS_PER_SECOND: int := 1_000_000_000

  /** Whole seconds between two clock readings in nanoseconds: duration_cast truncates towards
      zero. */
  function Elapsed(since: int, now: int): int {
    if now >= since then (now - since) / NANOS_PER_SECOND else -((since - now) / NANOS_PER_SECOND)
  }

  function Max(x: int, y: int): int {
    if x < y then y else x
  }

  function Min(x: int, y: int): int {
    if x < y then x else y
  }

  lemma AppendAssoc<T>(a: seq<T>, b: seq<T>, c: seq<T>)
    ensures a + b + c == a + (b + c)
  {
  }

  lemma Smaller<T>(a: set<T>, b: set<T>)
    requires a <= b
    ensures |a| <= |b|
  {
    if !(b <= a) {
      var x :| x in b && x !in a;
      Smaller(a, b - {x});
    } else {
      assert a == b;
    }
  }

  predicate Distinct<T(==)>(s: seq<T>) {
    forall i, j :: 0 <= i < j < |s| ==> s[i] != s[j]
  }

  /** In non-increasing order of `key`. */
  predicate Descending<T>(s: seq<T>, key: T -> real) {
    forall i, j :: 0 <= i < j < |s| ==> key(s[i]) >= key(s[j])
  }

  /** Stands for std::sort with a comparison of keys by `>`; ties come out in some order. */
  method SortDescending<T(==)>(s: seq<T>, key: T -> real) returns (sorted: seq<T>)
    requires Distinct(s)
    ensures Descending(sorted, key) && Distinct(sorted) && forall e :: e in sorted <==> e in s
  {
    sorted := [];
    for n := 0 to |s|
      invariant Descending(sorted, key) && Distinct(sorted) && forall e :: e in sorted <==> e in s[..n]
    {
      assert s[..n + 1] == s[..n] + [s[n]];
      sorted := Insert(sorted, s[n], key);
    }
  }

  method Insert<T(==)>(sorted: seq<T>, x: T, key: T -> real) returns (r: seq<T>)
    requires Descending(sorted, key) && Distinct(sorted) && x !in sorted
    ensures Descending(r, key) && Distinct(r) && forall e :: e in r <==> e in sorted || e == x
  {
    var k := 0;
    while k < |sorted| && key(sorted[k]) >= key(x)
      invariant 0 <= k <= |sorted|
      invariant forall i :: 0 <= i < k ==> key(sorted[i]) >= key(x)
    {
      k := k + 1;
    }
    r := sorted[..k] + [x] + sorted[k..];
    InsertedElements(sorted, k, x);
    InsertedOrder(sorted, k, x, key);
  }

  lemma InsertedElements<T>(s: seq<T>, k: nat, x: T)
    requires k <= |s| && Distinct(s) && x !in s
    ensures var r := s[..k] + [x] + s[k..];
            Distinct(r) && forall e :: e in r <==> e in s || e == x
  {
    var r := s[..k] + [x] + s[k..];
    forall e ensures e in r <==> e in s || e == x {
      assert s == s[..k] + s[k..];
    }
    forall i, j | 0 <= i < j < |r| ensures r[i] != r[j] {
      var i', j' := if i < k then i else i - 1, if j < k then j else j - 1;
      assert i != k ==> r[i] == s[i'] && r[i] in s;
      assert j != k ==> r[j] == s[j'] && r[j] in s;
    }
  }

  lemma InsertedOrder<T>(s: seq<T>, k: nat, x: T, key: T -> real)
    requires k <= |s| && Descending(s, key)
    requires forall i :: 0 <= i < k ==> key(s[i]) >= key(x)
    requires k < |s| ==> key(s[k]) < key(x)
    ensures Descending(s[..k] + [x] + s[k..], key)
  {
    var r := s[..k] + [x] + s[k..];
    assert forall i :: 0 <= i < k ==> r[i] == s[i];
    assert forall i :: k < i < |r| ==> r[i] == s[i - 1];
  }
}
