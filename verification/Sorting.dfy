/** Python's `sorted` over string keys: by code point, equal keys left in their order. */
module Sorting {
  predicate StrLe(a: string, b: string) {
    a == "" || (b != "" && (a[0] < b[0] || (a[0] == b[0] && StrLe(a[1..], b[1..]))))
  }

  lemma {:induction false} StrLeTotal(a: string, b: string)
    ensures StrLe(a, b) || StrLe(b, a)
    ensures StrLe(a, b) && StrLe(b, a) ==> a == b
  {
    if a != "" && b != "" && a[0] == b[0] {
      StrLeTotal(a[1..], b[1..]);
      assert a == [a[0]] + a[1..] && b == [b[0]] + b[1..];
    }
  }

  lemma {:induction false} StrLeTransitive(a: string, b: string, c: string)
    requires StrLe(a, b) && StrLe(b, c)
    ensures StrLe(a, c)
  {
    if a != "" && a[0] == b[0] == c[0] { StrLeTransitive(a[1..], b[1..], c[1..]); }
  }

  function InsertByKey<T>(x: T, sorted: seq<T>, key: T -> string): seq<T> {
    if sorted == [] || StrLe(key(x), key(sorted[0])) then [x] + sorted
    else [sorted[0]] + InsertByKey(x, sorted[1..], key)
  }

  function SortByKey<T>(xs: seq<T>, key: T -> string): seq<T> {
    if xs == [] then [] else InsertByKey(xs[0], SortByKey(xs[1..], key), key)
  }

  predicate Ascending<T>(xs: seq<T>, key: T -> string) {
    forall i, j :: 0 <= i < j < |xs| ==> StrLe(key(xs[i]), key(xs[j]))
  }

  lemma {:induction false} InsertAscends<T>(x: T, sorted: seq<T>, key: T -> string)
    requires Ascending(sorted, key)
    ensures Ascending(InsertByKey(x, sorted, key), key)
    ensures multiset(InsertByKey(x, sorted, key)) == multiset{x} + multiset(sorted)
  {
    var r := InsertByKey(x, sorted, key);
    if sorted == [] {
    } else if StrLe(key(x), key(sorted[0])) {
      forall j | 0 <= j < |sorted| ensures StrLe(key(x), key(sorted[j])) {
        if j > 0 { StrLeTransitive(key(x), key(sorted[0]), key(sorted[j])); }
      }
    } else {
      var tl := sorted[1..];
      var ins := InsertByKey(x, tl, key);
      InsertAscends(x, tl, key);
      StrLeTotal(key(x), key(sorted[0]));
      assert sorted == [sorted[0]] + tl;
      forall j | 0 <= j < |ins| ensures StrLe(key(sorted[0]), key(ins[j])) {
        assert ins[j] in multiset(ins);
        assert ins[j] == x || ins[j] in tl;
        if ins[j] != x { var k :| 0 <= k < |tl| && tl[k] == ins[j]; assert tl[k] == sorted[k + 1]; }
      }
      assert forall i :: 0 < i < |r| ==> r[i] == ins[i - 1];
    }
  }

  lemma {:induction false} SortByKeySorts<T>(xs: seq<T>, key: T -> string)
    ensures Ascending(SortByKey(xs, key), key)
    ensures multiset(SortByKey(xs, key)) == multiset(xs)
  {
    if xs != [] {
      SortByKeySorts(xs[1..], key);
      InsertAscends(xs[0], SortByKey(xs[1..], key), key);
      assert xs == [xs[0]] + xs[1..];
    }
  }

  lemma SortByKeyHasSame<T>(xs: seq<T>, key: T -> string)
    ensures |SortByKey(xs, key)| == |xs|
    ensures forall x :: x in SortByKey(xs, key) <==> x in xs
  {
    SortByKeySorts(xs, key);
    var s := SortByKey(xs, key);
    assert |s| == |multiset(s)| == |multiset(xs)| == |xs|;
    forall x ensures x in s <==> x in xs { assert x in multiset(s) <==> x in multiset(xs); }
  }

  predicate Distinct<T(==)>(xs: seq<T>) {
    forall i, j :: 0 <= i < j < |xs| ==> xs[i] != xs[j]
  }

  lemma {:induction false} DistinctByCount<T>(xs: seq<T>)
    ensures Distinct(xs) <==> forall x :: multiset(xs)[x] <= 1
  {
    if xs != [] {
      var tl := xs[1..];
      DistinctByCount(tl);
      assert xs == [xs[0]] + tl;
      assert multiset(xs) == multiset{xs[0]} + multiset(tl);
      if Distinct(xs) {
        assert Distinct(tl) by {
          forall i, j | 0 <= i < j < |tl| ensures tl[i] != tl[j] { assert tl[i] == xs[i + 1] && tl[j] == xs[j + 1]; }
        }
        assert forall k :: 0 <= k < |tl| ==> tl[k] == xs[k + 1];
        assert xs[0] !in multiset(tl);
      } else {
        var i, j :| 0 <= i < j < |xs| && xs[i] == xs[j];
        if i == 0 {
          assert xs[j] == tl[j - 1];
          assert xs[0] in multiset(tl);
          assert multiset(xs)[xs[0]] >= 2;
        } else {
          assert tl[i - 1] == tl[j - 1];
          var x :| multiset(tl)[x] > 1;
          assert multiset(xs)[x] > 1;
        }
      }
    }
  }

  lemma SortByKeyDistinct<T>(xs: seq<T>, key: T -> string)
    requires Distinct(xs)
    ensures Distinct(SortByKey(xs, key))
  {
    SortByKeySorts(xs, key);
    DistinctByCount(xs);
    DistinctByCount(SortByKey(xs, key));
  }

  // ---- sorted(set) --------------------------------------------------------------

  predicate LeastOf(s: set<string>, k: string) {
    k in s && forall j :: j in s ==> StrLe(k, j)
  }

  lemma {:induction false} LeastExists(s: set<string>) returns (k: string)
    requires s != {}
    ensures LeastOf(s, k)
    decreases |s|
  {
    k :| k in s;
    var rest := s - {k};
    StrLeTotal(k, k);
    forall j | j in s ensures j == k || j in rest {}
    if rest != {} {
      var m := LeastExists(rest);
      StrLeTotal(k, m);
      if StrLe(k, m) {
        forall j | j in s ensures StrLe(k, j) { if j != k { StrLeTransitive(k, m, j); } }
      } else {
        k := m;
      }
    }
  }

  lemma LeastUnique(s: set<string>)
    ensures forall a, b :: LeastOf(s, a) && LeastOf(s, b) ==> a == b
  {
    forall a, b | LeastOf(s, a) && LeastOf(s, b) ensures a == b { StrLeTotal(a, b); }
  }

  function Least(s: set<string>): (k: string)
    requires s != {}
    ensures LeastOf(s, k)
  {
    assert LeastOf(s, LeastWitness(s));
    LeastUnique(s);
    var k :| LeastOf(s, k);
    k
  }

  ghost function LeastWitness(s: set<string>): (k: string)
    requires s != {}
    ensures LeastOf(s, k)
  {
    assert exists k :: LeastOf(s, k) by { var k := LeastExists(s); }
    var k :| LeastOf(s, k);
    k
  }

  /** `sorted(s)` for a set of strings. */
  function SortedSet(s: set<string>): (r: seq<string>)
    ensures forall k :: k in r <==> k in s
    ensures |r| == |s|
    decreases |s|
  {
    if s == {} then [] else
      var k := Least(s);
      [k] + SortedSet(s - {k})
  }

  lemma {:induction false} SortedSetAscends(s: set<string>)
    ensures Ascending(SortedSet(s), (k: string) => k) && Distinct(SortedSet(s))
    decreases |s|
  {
    if s != {} {
      var k := Least(s);
      SortedSetAscends(s - {k});
    }
  }

  function AsSet<T(==)>(xs: seq<T>): set<T> {
    set x | x in xs
  }

  lemma AsSetOneMore<T>(xs: seq<T>, k: nat)
    requires k < |xs|
    ensures AsSet(xs[..k + 1]) == AsSet(xs[..k]) + {xs[k]}
  {
    assert xs[..k + 1] == xs[..k] + [xs[k]];
  }

  lemma AsSetJoined<T>(a: seq<T>, b: seq<T>)
    ensures AsSet(a + b) == AsSet(a) + AsSet(b)
  {
  }

  lemma AsSetEmpty<T>(xs: seq<T>)
    ensures AsSet(xs) == {} <==> xs == []
  {
    if xs != [] { assert xs[0] in AsSet(xs); }
  }
}
