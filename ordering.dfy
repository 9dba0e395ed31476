/** String ordering and sorting, standing in for Swift's `String <` and for
    `sorted()` / `sorted(by:)` where the sort key is a string. The order is
    lexicographic on characters (Swift compares Unicode scalars of canonically
    equivalent strings; for the ASCII texts this model meets the two agree). */
module Ordering {

  /** Lexicographic strict order: `a < b` on strings. */
  predicate Less(a: string, b: string)
    decreases |a|
  {
    if |a| == 0 then |b| > 0
    else if |b| == 0 then false
    else if a[0] == b[0] then Less(a[1..], b[1..])
    else a[0] < b[0]
  }

  lemma {:induction false} LessIrreflexive(a: string)
    ensures !Less(a, a)
    decreases |a|
  {
    if |a| > 0 {
      LessIrreflexive(a[1..]);
    }
  }

  lemma {:induction false} LessTransitive(a: string, b: string, c: string)
    requires Less(a, b) && Less(b, c)
    ensures Less(a, c)
    decreases |a|
  {
    if |a| > 0 && a[0] == b[0] && b[0] == c[0] {
      LessTransitive(a[1..], b[1..], c[1..]);
    }
  }

  /** Two different strings are always ordered one way or the other. */
  lemma {:induction false} LessTotal(a: string, b: string)
    requires a != b
    ensures Less(a, b) || Less(b, a)
    decreases |a|
  {
    if |a| > 0 && |b| > 0 && a[0] == b[0] {
      assert a == [a[0]] + a[1..] && b == [b[0]] + b[1..];
      LessTotal(a[1..], b[1..]);
    }
  }

  lemma {:induction false} LessAsymmetric(a: string, b: string)
    requires Less(a, b)
    ensures !Less(b, a)
  {
    if Less(b, a) {
      LessTransitive(a, b, a);
      LessIrreflexive(a);
    }
  }

  /** Every element is smaller than every later element. */
  predicate StrictlySorted(xs: seq<string>) {
    forall i, j :: 0 <= i < j < |xs| ==> Less(xs[i], xs[j])
  }

  /** Consecutive elements are in order; for strict order this is equivalent. */
  lemma {:induction false} StrictlySortedFromAdjacent(xs: seq<string>)
    requires forall i :: 0 <= i < |xs| - 1 ==> Less(xs[i], xs[i + 1])
    ensures StrictlySorted(xs)
    decreases |xs|
  {
    if |xs| > 1 {
      StrictlySortedFromAdjacent(xs[1..]);
      forall j | 1 < j < |xs| ensures Less(xs[0], xs[j]) {
        assert Less(xs[1..][0], xs[1..][j - 1]);
        LessTransitive(xs[0], xs[1], xs[j]);
      }
    }
  }

  lemma StrictlySortedDistinct(xs: seq<string>, i: nat, j: nat)
    requires StrictlySorted(xs) && i < |xs| && j < |xs| && i != j
    ensures xs[i] != xs[j]
  {
    if i < j {
      LessIrreflexive(xs[i]);
    } else {
      LessIrreflexive(xs[j]);
    }
  }

  lemma MembersWitnessLength(xs: seq<string>, ys: seq<string>)
    requires forall z :: z in xs ==> z in ys
    ensures |xs| > 0 ==> |ys| > 0
  {
    if |xs| > 0 {
      assert xs[0] in ys;
    }
  }

  /** Two strictly sorted sequences with the same elements are equal: a sorted
      listing of a set is unique, whatever order the set was visited in. */
  lemma {:induction false} SortedUnique(xs: seq<string>, ys: seq<string>)
    requires StrictlySorted(xs) && StrictlySorted(ys)
    requires forall z :: z in xs <==> z in ys
    ensures xs == ys
    decreases |xs|
  {
    MembersWitnessLength(ys, xs);
    if |xs| == 0 {
    } else {
      assert xs[0] in xs;
      assert ys[0] in ys;
      if xs[0] != ys[0] {
        var i :| 0 <= i < |xs| && xs[i] == ys[0];
        var j :| 0 <= j < |ys| && ys[j] == xs[0];
        LessAsymmetric(xs[0], xs[i]);
      }
      var xr, yr := xs[1..], ys[1..];
      LessIrreflexive(xs[0]);
      forall z ensures z in xr <==> z in yr {
        if z in xr {
          var k :| 0 <= k < |xr| && xr[k] == z;
          assert Less(xs[0], xs[k + 1]) && xs[k + 1] in xs;
          var m :| 0 <= m < |ys| && ys[m] == z;
          assert m != 0;
          assert yr[m - 1] == z;
        }
        if z in yr {
          var k :| 0 <= k < |yr| && yr[k] == z;
          assert Less(ys[0], ys[k + 1]) && ys[k + 1] in ys;
          var m :| 0 <= m < |xs| && xs[m] == z;
          assert m != 0;
          assert xr[m - 1] == z;
        }
      }
      SortedUnique(xr, yr);
      assert xs == [xs[0]] + xr && ys == [ys[0]] + yr;
    }
  }

  /** `m` is the least element of `s`. */
  predicate IsMin(m: string, s: set<string>) {
    m in s && forall y :: y in s && y != m ==> Less(m, y)
  }

  /** The least element of a non-empty finite set of strings. */
  ghost function Min(s: set<string>): (m: string)
    requires s != {}
    ensures m in s
    ensures forall y :: y in s && y != m ==> Less(m, y)
  {
    MinExists(s);
    var m :| IsMin(m, s);
    m
  }

  lemma {:induction false} MinExists(s: set<string>)
    requires s != {}
    ensures exists m :: IsMin(m, s)
    decreases |s|
  {
    var x :| x in s;
    if s == {x} {
      assert IsMin(x, s);
    } else {
      var r := s - {x};
      MinExists(r);
      var m :| IsMin(m, r);
      if Less(m, x) {
        assert IsMin(m, s);
      } else {
        LessTotal(m, x);
        forall y | y in s && y != x ensures Less(x, y) {
          if y != m {
            LessTransitive(x, m, y);
          }
        }
        assert IsMin(x, s);
      }
    }
  }

  /** `set.sorted()`: the elements of a set in ascending order. */
  ghost function SortedSet(s: set<string>): (r: seq<string>)
    ensures StrictlySorted(r)
    ensures forall x :: x in r <==> x in s
    ensures |r| == |s|
    decreases |s|
  {
    if s == {} then []
    else
      var m := Min(s);
      var rest := SortedSet(s - {m});
      assert forall j :: 0 <= j < |rest| ==> rest[j] in s - {m};
      [m] + rest
  }

  /** Sorting a set through any sorted listing gives `SortedSet`. */
  lemma SortedSetUnique(s: set<string>, xs: seq<string>)
    requires StrictlySorted(xs) && forall x :: x in xs <==> x in s
    ensures xs == SortedSet(s)
  {
    SortedUnique(xs, SortedSet(s));
  }

  /** Insert `x` into a strictly sorted sequence that does not hold it. */
  function Insert(x: string, xs: seq<string>): (r: seq<string>)
    requires StrictlySorted(xs) && x !in xs
    ensures StrictlySorted(r)
    ensures forall y :: y in r <==> y in xs || y == x
    ensures |r| == |xs| + 1
    decreases |xs|
  {
    if |xs| == 0 then [x]
    else if Less(x, xs[0]) then
      forall j | 0 < j < |xs| ensures Less(x, xs[j]) {
        LessTransitive(x, xs[0], xs[j]);
      }
      [x] + xs
    else
      LessTotal(x, xs[0]);
      var r := Insert(x, xs[1..]);
      assert xs == [xs[0]] + xs[1..];
      forall j | 0 <= j < |r| ensures Less(xs[0], r[j]) {
        assert r[j] in r;
        if r[j] != x {
          var k :| 0 <= k < |xs[1..]| && xs[1..][k] == r[j];
          assert xs[k + 1] == r[j];
        }
      }
      [xs[0]] + r
  }

  /** `xs.sorted(by: { key($0) < key($1) })` for records with distinct keys. */
  function SortBy<T>(xs: seq<T>, key: T -> string): (r: seq<T>)
    ensures multiset(r) == multiset(xs)
    ensures |r| == |xs|
    decreases |xs|
  {
    if |xs| == 0 then []
    else
      assert xs == [xs[0]] + xs[1..];
      InsertBy(xs[0], SortBy(xs[1..], key), key)
  }

  /** Place `x` before the first element whose key is larger. */
  function InsertBy<T>(x: T, xs: seq<T>, key: T -> string): (r: seq<T>)
    ensures multiset(r) == multiset(xs) + multiset{x}
    decreases |xs|
  {
    if |xs| == 0 || Less(key(x), key(xs[0])) then [x] + xs
    else
      assert xs == [xs[0]] + xs[1..];
      [xs[0]] + InsertBy(x, xs[1..], key)
  }

  predicate SortedByKey<T>(xs: seq<T>, key: T -> string) {
    forall i, j :: 0 <= i < j < |xs| ==> key(xs[i]) == key(xs[j]) || Less(key(xs[i]), key(xs[j]))
  }

  lemma {:induction false} InsertBySorted<T>(x: T, xs: seq<T>, key: T -> string)
    requires SortedByKey(xs, key)
    ensures SortedByKey(InsertBy(x, xs, key), key)
    decreases |xs|
  {
    if |xs| == 0 || Less(key(x), key(xs[0])) {
      var r := [x] + xs;
      forall i, j | 0 <= i < j < |r| ensures key(r[i]) == key(r[j]) || Less(key(r[i]), key(r[j])) {
        if i == 0 && key(xs[0]) != key(xs[j - 1]) {
          LessTransitive(key(x), key(xs[0]), key(xs[j - 1]));
        }
      }
    } else {
      InsertBySorted(x, xs[1..], key);
      var rest := InsertBy(x, xs[1..], key);
      var r := [xs[0]] + rest;
      if key(x) != key(xs[0]) {
        LessTotal(key(x), key(xs[0]));
      }
      forall j | 0 <= j < |rest| ensures key(xs[0]) == key(rest[j]) || Less(key(xs[0]), key(rest[j])) {
        assert rest[j] in multiset(rest);
        assert rest[j] == x || rest[j] in multiset(xs[1..]);
        if rest[j] != x {
          var k :| 0 <= k < |xs[1..]| && xs[1..][k] == rest[j];
          assert xs[k + 1] == rest[j];
        }
      }
      assert forall j :: 0 < j < |r| ==> r[j] == rest[j - 1];
    }
  }

  /** The result of `SortBy` is in ascending key order. */
  lemma {:induction false} SortBySorted<T>(xs: seq<T>, key: T -> string)
    ensures SortedByKey(SortBy(xs, key), key)
    decreases |xs|
  {
    if |xs| > 0 {
      SortBySorted(xs[1..], key);
      InsertBySorted(xs[0], SortBy(xs[1..], key), key);
    }
  }

  /** With distinct keys, the sorted keys are strictly sorted. */
  lemma SortByStrict<T>(xs: seq<T>, key: T -> string)
    requires forall i, j :: 0 <= i < j < |xs| ==> key(xs[i]) != key(xs[j])
    ensures var r := SortBy(xs, key);
      forall i, j :: 0 <= i < j < |r| ==> Less(key(r[i]), key(r[j]))
  {
    var r := SortBy(xs, key);
    SortBySorted(xs, key);
    forall i, j | 0 <= i < j < |r| ensures Less(key(r[i]), key(r[j])) {
      if key(r[i]) == key(r[j]) {
        DistinctKeysSurvive(xs, r, key, i, j);
      }
    }
  }

  /** A permutation of a sequence with distinct keys has distinct keys. */
  lemma DistinctKeysSurvive<T>(xs: seq<T>, r: seq<T>, key: T -> string, i: nat, j: nat)
    requires forall a, b :: 0 <= a < b < |xs| ==> key(xs[a]) != key(xs[b])
    requires multiset(r) == multiset(xs)
    requires i < j < |r|
    ensures key(r[i]) != key(r[j])
  {
    if key(r[i]) == key(r[j]) {
      assert r[i] in multiset(xs) && r[j] in multiset(xs);
      var a :| 0 <= a < |xs| && xs[a] == r[i];
      var b :| 0 <= b < |xs| && xs[b] == r[j];
      if a == b {
        assert r[i] == r[j];
        assert multiset(r)[r[i]] >= 2 by {
          assert r == r[..i] + [r[i]] + r[i + 1..j] + [r[j]] + r[j + 1..];
        }
        assert multiset(xs)[xs[a]] >= 2;
        DistinctHaveMultiplicityOne(xs, key, a);
      }
    }
  }

  lemma {:induction false} DistinctHaveMultiplicityOne<T>(xs: seq<T>, key: T -> string, a: nat)
    requires forall p, q :: 0 <= p < q < |xs| ==> key(xs[p]) != key(xs[q])
    requires a < |xs|
    ensures multiset(xs)[xs[a]] == 1
    decreases |xs|
  {
    if a == 0 {
      assert xs == [xs[0]] + xs[1..];
      forall k | 0 <= k < |xs[1..]| ensures xs[1..][k] != xs[0] {
        assert key(xs[0]) != key(xs[k + 1]);
      }
      assert xs[0] !in xs[1..];
    } else {
      assert xs == [xs[0]] + xs[1..];
      assert xs[1..][a - 1] == xs[a];
      DistinctHaveMultiplicityOne(xs[1..], key, a - 1);
      assert xs[0] != xs[a] by {
        assert key(xs[0]) != key(xs[a]);
      }
    }
  }

  /** The keys of a sequence of records, in order. */
  function Keys<T>(xs: seq<T>, key: T -> string): (ks: seq<string>)
    ensures |ks| == |xs| && forall i :: 0 <= i < |xs| ==> ks[i] == key(xs[i])
  {
    seq(|xs|, i requires 0 <= i < |xs| => key(xs[i]))
  }

  /** `xs` holds exactly one record for each key in `ks`, and no other record. */
  predicate ListsKeys<T>(xs: seq<T>, key: T -> string, ks: set<string>) {
    (forall i, j :: 0 <= i < j < |xs| ==> key(xs[i]) != key(xs[j])) &&
    (forall i :: 0 <= i < |xs| ==> key(xs[i]) in ks) &&
    (forall k :: k in ks ==> exists i :: 0 <= i < |xs| && key(xs[i]) == k)
  }

  /** Sorting by key any listing of a key set gives the keys in ascending
      order, whatever order the records were gathered in. */
  lemma SortByKeysCanonical<T>(xs: seq<T>, key: T -> string, ks: set<string>)
    requires ListsKeys(xs, key, ks)
    ensures Keys(SortBy(xs, key), key) == SortedSet(ks)
  {
    var r := SortBy(xs, key);
    var k := Keys(r, key);
    assert StrictlySorted(k) by {
      SortByStrict(xs, key);
      assert forall i, j :: 0 <= i < j < |r| ==> Less(key(r[i]), key(r[j]));
      forall i, j | 0 <= i < j < |k| ensures Less(k[i], k[j]) {
        assert k[i] == key(r[i]) && k[j] == key(r[j]);
      }
    }
    forall x ensures x in k <==> x in ks {
      if x in k {
        var i :| 0 <= i < |k| && k[i] == x;
        assert r[i] in multiset(xs);
        var j :| 0 <= j < |xs| && xs[j] == r[i];
      }
      if x in ks {
        var j :| 0 <= j < |xs| && key(xs[j]) == x;
        assert xs[j] in multiset(r);
        var i :| 0 <= i < |r| && r[i] == xs[j];
        assert k[i] == x;
      }
    }
    SortedSetUnique(ks, k);
  }
}
