/** Values shared by every component: optional and fallible results, the total orders that the
    program sorts by, and the sorted listing of a set. */
module Basics {

  datatype Option<+T> = None | Some(value: T)

  datatype Result<+T, +E> = Ok(value: T) | Err(error: E)

  // ---- orders ----

  /** A strict total order: what `sort` needs of the elements it is given. */
  ghost predicate TotalOrder<T(!new)>(less: (T, T) -> bool) {
    && (forall x :: !less(x, x))
    && (forall x, y :: x == y || less(x, y) || less(y, x))
    && (forall x, y, z :: less(x, y) && less(y, z) ==> less(x, z))
  }

  /** Strings by code point, the shorter first when one is a prefix of the other. */
  predicate StringLess(a: string, b: string) {
    b != [] && (a == [] || a[0] < b[0] || (a[0] == b[0] && StringLess(a[1..], b[1..])))
  }

  /** Pairs of strings: by the first component, then the second. */
  predicate PairLess(a: (string, string), b: (string, string)) {
    StringLess(a.0, b.0) || (a.0 == b.0 && StringLess(a.1, b.1))
  }

  /** Child edges: by child index, then child id. */
  predicate EdgeLess(a: (nat, string), b: (nat, string)) {
    a.0 < b.0 || (a.0 == b.0 && StringLess(a.1, b.1))
  }

  /** Triples of strings, as the rows of `find` and `text` are sorted. */
  predicate TripleLess(a: (string, string, string), b: (string, string, string)) {
    StringLess(a.0, b.0) || (a.0 == b.0 && PairLess((a.1, a.2), (b.1, b.2)))
  }

  lemma {:induction false} StringLessTrichotomy(a: string, b: string)
    ensures a == b || StringLess(a, b) || StringLess(b, a)
    ensures !(StringLess(a, b) && StringLess(b, a))
    ensures a == b ==> !StringLess(a, b)
  {
    if a != [] && b != [] && a[0] == b[0] {
      StringLessTrichotomy(a[1..], b[1..]);
      assert a == [a[0]] + a[1..] && b == [b[0]] + b[1..];
    }
  }

  lemma {:induction false} StringLessTransitive(a: string, b: string, c: string)
    requires StringLess(a, b) && StringLess(b, c)
    ensures StringLess(a, c)
  {
    if a != [] && a[0] == b[0] && b[0] == c[0] {
      StringLessTransitive(a[1..], b[1..], c[1..]);
    }
  }

  lemma StringOrder()
    ensures TotalOrder(StringLess)
  {
    forall a, b { StringLessTrichotomy(a, b); }
    forall a, b, c | StringLess(a, b) && StringLess(b, c) { StringLessTransitive(a, b, c); }
  }

  lemma PairOrder()
    ensures TotalOrder(PairLess)
  {
    StringOrder();
  }

  lemma EdgeOrder()
    ensures TotalOrder(EdgeLess)
  {
    StringOrder();
  }

  lemma TripleOrder()
    ensures TotalOrder(TripleLess)
  {
    StringOrder();
    PairOrder();
  }

  // ---- sorted listings ----

  ghost predicate Increasing<T>(less: (T, T) -> bool, s: seq<T>) {
    forall i, j :: 0 <= i < j < |s| ==> less(s[i], s[j])
  }

  function Elements<T>(s: seq<T>): set<T> {
    set x | x in s
  }

  lemma NoElements<T>(s: seq<T>)
    ensures Elements(s) == {} <==> s == []
  {
    if s != [] {
      assert s[0] in Elements(s);
    }
  }

  /** The strictly increasing listing of a set: `sort`, followed by `dedup`, on any listing of it. */
  function Sorted<T(!new,==)>(less: (T, T) -> bool, s: set<T>): (r: seq<T>)
    requires TotalOrder(less)
    ensures Increasing(less, r) && Elements(r) == s
  {
    if s == {} then [] else
      var m := Least(less, s);
      var rest := Sorted(less, s - {m});
      IncreasingCons(less, m, rest);
      [m] + rest
  }

  function Least<T(!new,==)>(less: (T, T) -> bool, s: set<T>): (m: T)
    requires TotalOrder(less) && s != {}
    ensures m in s && forall x <- s :: x == m || less(m, x)
  {
    LeastExists(less, s);
    var m :| m in s && forall x <- s :: x == m || less(m, x);
    m
  }

  lemma LeastExists<T(!new)>(less: (T, T) -> bool, s: set<T>)
    requires TotalOrder(less) && s != {}
    ensures exists m :: m in s && forall x <- s :: x == m || less(m, x)
  {
    var y :| y in s;
    if s != {y} {
      LeastExists(less, s - {y});
      var m :| m in s - {y} && forall x <- s - {y} :: x == m || less(m, x);
      var least := if less(y, m) then y else m;
      forall x | x in s ensures x == least || less(least, x) {
        if x != y {
          assert x in s - {y};
        }
      }
    }
  }

  lemma IncreasingCons<T(!new)>(less: (T, T) -> bool, m: T, rest: seq<T>)
    requires Increasing(less, rest) && forall x <- Elements(rest) :: less(m, x)
    ensures Increasing(less, [m] + rest) && Elements([m] + rest) == {m} + Elements(rest)
  {
    forall i, j | 0 <= i < j < |[m] + rest| ensures less(([m] + rest)[i], ([m] + rest)[j]) {
      assert ([m] + rest)[j] == rest[j - 1] && rest[j - 1] in Elements(rest);
    }
  }

  /** Two strictly increasing listings of the same elements are the same sequence. */
  lemma {:induction false} IncreasingUnique<T(!new)>(less: (T, T) -> bool, s: seq<T>, t: seq<T>)
    requires TotalOrder(less) && Increasing(less, s) && Increasing(less, t)
    requires Elements(s) == Elements(t)
    ensures s == t
  {
    NoElements(s);
    NoElements(t);
    if s != [] {
      assert s[0] in Elements(t) && t[0] in Elements(s);
      assert s[0] == t[0];
      forall x ensures x in Elements(s[1..]) <==> x in Elements(t[1..]) {
        assert x in s[1..] <==> x in Elements(s) && x != s[0];
        assert x in t[1..] <==> x in Elements(t) && x != t[0];
      }
      IncreasingUnique(less, s[1..], t[1..]);
      assert s == [s[0]] + s[1..] && t == [t[0]] + t[1..];
    }
  }

  function SortedStrings(s: set<string>): (r: seq<string>)
    ensures Increasing(StringLess, r) && Elements(r) == s
  {
    StringOrder();
    Sorted(StringLess, s)
  }

  function SortedPairs(s: set<(string, string)>): (r: seq<(string, string)>)
    ensures Increasing(PairLess, r) && Elements(r) == s
  {
    PairOrder();
    Sorted(PairLess, s)
  }

  function SortedEdges(s: set<(nat, string)>): (r: seq<(nat, string)>)
    ensures Increasing(EdgeLess, r) && Elements(r) == s
  {
    EdgeOrder();
    Sorted(EdgeLess, s)
  }

  function SortedTriples(s: set<(string, string, string)>): (r: seq<(string, string, string)>)
    ensures Increasing(TripleLess, r) && Elements(r) == s
  {
    TripleOrder();
    Sorted(TripleLess, s)
  }

  // ---- sorting a list ----

  /** Non-decreasing: no element is less than one before it. */
  ghost predicate NonDecreasing<T>(less: (T, T) -> bool, s: seq<T>) {
    forall i, j :: 0 <= i < j < |s| ==> !less(s[j], s[i])
  }

  /** Put an element before the first that is not less than it. */
  function InsertSorted<T(!new)>(less: (T, T) -> bool, x: T, s: seq<T>): (r: seq<T>)
    requires TotalOrder(less) && NonDecreasing(less, s)
    ensures NonDecreasing(less, r) && multiset(r) == multiset(s) + multiset{x}
  {
    if s == [] || !less(s[0], x) then
      InsertFront(less, x, s);
      [x] + s
    else
      var rest := InsertSorted(less, x, s[1..]);
      InsertLater(less, x, s, rest);
      [s[0]] + rest
  }

  lemma InsertFront<T(!new)>(less: (T, T) -> bool, x: T, s: seq<T>)
    requires TotalOrder(less) && NonDecreasing(less, s) && (s == [] || !less(s[0], x))
    ensures NonDecreasing(less, [x] + s) && multiset([x] + s) == multiset(s) + multiset{x}
  {
    forall j | 0 <= j < |s| ensures !less(s[j], x) {
      assert j > 0 ==> !less(s[j], s[0]);
    }
  }

  lemma InsertLater<T(!new)>(less: (T, T) -> bool, x: T, s: seq<T>, rest: seq<T>)
    requires TotalOrder(less) && NonDecreasing(less, s) && s != [] && less(s[0], x)
    requires NonDecreasing(less, rest) && multiset(rest) == multiset(s[1..]) + multiset{x}
    ensures NonDecreasing(less, [s[0]] + rest) && multiset([s[0]] + rest) == multiset(s) + multiset{x}
  {
    assert s == [s[0]] + s[1..];
    forall j | 0 <= j < |rest| ensures !less(rest[j], s[0]) {
      assert rest[j] in multiset(rest);
      if rest[j] in s[1..] {
        var k :| 0 <= k < |s[1..]| && s[1..][k] == rest[j];
        assert !less(s[k + 1], s[0]);
      }
    }
  }

  /** The list sorted, repeats kept. */
  function PairSort(s: seq<(string, string)>): (r: seq<(string, string)>)
    ensures NonDecreasing(PairLess, r) && multiset(r) == multiset(s)
  {
    PairOrder();
    if s == [] then []
    else
      assert s == [s[0]] + s[1..];
      InsertSorted(PairLess, s[0], PairSort(s[1..]))
  }

  // ---- sequences ----

  ghost predicate Distinct<T>(s: seq<T>) {
    forall i, j :: 0 <= i < j < |s| ==> s[i] != s[j]
  }

  function Map<T, U>(f: T -> U, s: seq<T>): (r: seq<U>)
    ensures |r| == |s| && forall i :: 0 <= i < |s| ==> r[i] == f(s[i])
  {
    seq(|s|, i requires 0 <= i < |s| => f(s[i]))
  }

  // ---- what the orders are ----

  /** The texts first differ at `k`, where `a` ends or has the smaller character. */
  ghost predicate DifferAt(a: string, b: string, k: nat) {
    k <= |a| && k < |b| && a[..k] == b[..k] && (k == |a| || a[k] < b[k])
  }

  lemma {:induction false} StringLessIs(a: string, b: string)
    ensures StringLess(a, b) <==> exists k: nat :: DifferAt(a, b, k)
  {
    if a == [] || b == [] || a[0] != b[0] {
      if StringLess(a, b) {
        assert DifferAt(a, b, 0);
      }
      if k: nat :| DifferAt(a, b, k) {
        assert k > 0 ==> a[..k][0] == b[..k][0];
      }
    } else {
      StringLessIs(a[1..], b[1..]);
      if k: nat :| DifferAt(a[1..], b[1..], k) {
        assert a[..k + 1] == [a[0]] + a[1..][..k] && b[..k + 1] == [b[0]] + b[1..][..k];
        assert DifferAt(a, b, k + 1);
      }
      if k: nat :| DifferAt(a, b, k) {
        assert k > 0;
        assert a[1..][..k - 1] == a[..k][1..] && b[1..][..k - 1] == b[..k][1..];
        assert DifferAt(a[1..], b[1..], k - 1);
      }
    }
  }

  /** Sorted pairs go by their first text, and sorted rows by theirs; equal ones go by what follows. */
  lemma SortedByFirst(pairs: seq<(string, string)>, rows: seq<(string, string, string)>, i: nat, j: nat)
    requires i < j
    ensures Increasing(PairLess, pairs) && j < |pairs| ==>
      StringLess(pairs[i].0, pairs[j].0) || (pairs[i].0 == pairs[j].0 && StringLess(pairs[i].1, pairs[j].1))
    ensures Increasing(TripleLess, rows) && j < |rows| ==>
      || StringLess(rows[i].0, rows[j].0)
      || (rows[i].0 == rows[j].0 && StringLess(rows[i].1, rows[j].1))
      || (rows[i].0 == rows[j].0 && rows[i].1 == rows[j].1 && StringLess(rows[i].2, rows[j].2))
  {
    hide StringLess;
    if Increasing(PairLess, pairs) && j < |pairs| {
      assert PairLess(pairs[i], pairs[j]);
    }
    if Increasing(TripleLess, rows) && j < |rows| {
      assert TripleLess(rows[i], rows[j]);
    }
  }
}
