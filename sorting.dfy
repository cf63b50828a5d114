/** A stable insertion sort by a lexicographic key. It stands for Python's
    `list.sort(key=...)` / `sorted(...)`, Django's `order_by(...)` (ties kept in
    table order) and JavaScript's `Array.prototype.sort` on code units. Integer
    keys are one-element key sequences, strings are their code points and a
    tuple key is the concatenation of its parts. */
module Sorting {

  /** Lexicographic order on integer sequences (Python tuple / str order). */
  predicate LexLe(a: seq<int>, b: seq<int>)
    decreases |a|
  {
    if a == [] then true
    else if b == [] then false
    else if a[0] != b[0] then a[0] < b[0]
    else LexLe(a[1..], b[1..])
  }

  lemma {:induction false} LexLeRefl(a: seq<int>)
    ensures LexLe(a, a)
    decreases |a|
  {
    if a != [] { LexLeRefl(a[1..]); }
  }

  lemma {:induction false} LexLeTotal(a: seq<int>, b: seq<int>)
    ensures LexLe(a, b) || LexLe(b, a)
    decreases |a|
  {
    if a != [] && b != [] && a[0] == b[0] { LexLeTotal(a[1..], b[1..]); }
  }

  lemma {:induction false} LexLeTrans(a: seq<int>, b: seq<int>, c: seq<int>)
    requires LexLe(a, b) && LexLe(b, c)
    ensures LexLe(a, c)
    decreases |a|
  {
    if a != [] && b != [] && c != [] && a[0] == b[0] && b[0] == c[0] {
      LexLeTrans(a[1..], b[1..], c[1..]);
    }
  }

  /** On one-element keys the order is the integer order. */
  lemma LexLeSingleton(x: int, y: int)
    ensures LexLe([x], [y]) <==> x <= y
  {
    assert [x][1..] == [] && [y][1..] == [];
  }

  ghost predicate SortedBy<T>(s: seq<T>, key: T -> seq<int>) {
    forall i, j :: 0 <= i < j < |s| ==> LexLe(key(s[i]), key(s[j]))
  }

  /** Inserts x before the first element whose key is not smaller, so an
      element inserted later that compares equal stays after it (stability). */
  function Insert<T>(x: T, s: seq<T>, key: T -> seq<int>): (r: seq<T>)
    ensures multiset(r) == multiset(s) + multiset{x}
    ensures |r| == |s| + 1
  {
    if s == [] then [x]
    else if LexLe(key(x), key(s[0])) then [x] + s
    else
      assert s == [s[0]] + s[1..];
      [s[0]] + Insert(x, s[1..], key)
  }

  function SortBy<T>(s: seq<T>, key: T -> seq<int>): (r: seq<T>)
    ensures multiset(r) == multiset(s)
    ensures |r| == |s|
  {
    if s == [] then []
    else
      assert s == [s[0]] + s[1..];
      Insert(s[0], SortBy(s[1..], key), key)
  }

  /** Prepending an element whose key is at most every key of a sorted list
      keeps it sorted. */
  lemma ConsSorted<T>(x: T, s: seq<T>, key: T -> seq<int>)
    requires SortedBy(s, key)
    requires forall y :: y in s ==> LexLe(key(x), key(y))
    ensures SortedBy([x] + s, key)
  {
    var r := [x] + s;
    forall i, j | 0 <= i < j < |r| ensures LexLe(key(r[i]), key(r[j])) {
      assert r[j] == s[j - 1] && s[j - 1] in s;
      if i > 0 { assert r[i] == s[i - 1]; }
    }
  }

  lemma {:induction false} InsertSorted<T>(x: T, s: seq<T>, key: T -> seq<int>)
    requires SortedBy(s, key)
    ensures SortedBy(Insert(x, s, key), key)
    decreases |s|
  {
    if s != [] && !LexLe(key(x), key(s[0])) {
      var rest := Insert(x, s[1..], key);
      assert SortedBy(s[1..], key) by {
        forall i, j | 0 <= i < j < |s[1..]| ensures LexLe(key(s[1..][i]), key(s[1..][j])) {
          assert s[1..][i] == s[i + 1] && s[1..][j] == s[j + 1];
        }
      }
      InsertSorted(x, s[1..], key);
      LexLeTotal(key(x), key(s[0]));
      forall y | y in rest ensures LexLe(key(s[0]), key(y)) {
        InsertMember(x, s[1..], key, y);
        if y != x {
          var k :| 0 <= k < |s[1..]| && s[1..][k] == y;
          assert s[k + 1] == y;
        }
      }
      ConsSorted(s[0], rest, key);
    } else if s != [] {
      forall y | y in s ensures LexLe(key(x), key(y)) {
        var k :| 0 <= k < |s| && s[k] == y;
        if k > 0 { LexLeTrans(key(x), key(s[0]), key(y)); }
      }
      ConsSorted(x, s, key);
    }
  }

  lemma {:induction false} SortBySorted<T>(s: seq<T>, key: T -> seq<int>)
    ensures SortedBy(SortBy(s, key), key)
    decreases |s|
  {
    if s != [] {
      SortBySorted(s[1..], key);
      InsertSorted(s[0], SortBy(s[1..], key), key);
    }
  }

  /** Membership survives sorting in both directions. */
  lemma SortByMembers<T>(s: seq<T>, key: T -> seq<int>)
    ensures forall x :: x in SortBy(s, key) <==> x in s
  {
    var r := SortBy(s, key);
    assert multiset(r) == multiset(s);
    forall x ensures x in r <==> x in s {
      assert x in r <==> x in multiset(r);
      assert x in s <==> x in multiset(s);
    }
  }

  /** Elements pairwise distinct under a projection `p` (e.g. their ids). */
  ghost predicate DistinctBy<T, K>(s: seq<T>, p: T -> K) {
    forall i, j :: 0 <= i < j < |s| ==> p(s[i]) != p(s[j])
  }

  /** Membership after an insertion: the inserted element and the old ones. */
  lemma InsertMember<T>(x: T, s: seq<T>, key: T -> seq<int>, y: T)
    ensures y in Insert(x, s, key) <==> y == x || y in s
  {
    var r := Insert(x, s, key);
    assert y in r <==> y in multiset(r);
    assert y in s <==> y in multiset(s);
  }

  /** Membership after sorting, for one element. */
  lemma SortByMember<T>(s: seq<T>, key: T -> seq<int>, y: T)
    ensures y in SortBy(s, key) <==> y in s
  {
    var r := SortBy(s, key);
    assert y in r <==> y in multiset(r);
    assert y in s <==> y in multiset(s);
  }

  /** Prepending an element whose projection no element of a distinct list
      shares keeps it distinct. */
  lemma ConsDistinct<T, K>(x: T, s: seq<T>, p: T -> K)
    requires DistinctBy(s, p)
    requires forall y :: y in s ==> p(y) != p(x)
    ensures DistinctBy([x] + s, p)
  {
    var r := [x] + s;
    forall i, j | 0 <= i < j < |r| ensures p(r[i]) != p(r[j]) {
      assert r[j] == s[j - 1] && s[j - 1] in s;
      if i > 0 { assert r[i] == s[i - 1]; }
    }
  }

  /** In a distinct list, the head's projection differs from every later one
      and the tail is distinct. */
  lemma HeadDistinct<T, K>(s: seq<T>, p: T -> K)
    requires DistinctBy(s, p) && s != []
    ensures forall y :: y in s[1..] ==> p(y) != p(s[0])
    ensures DistinctBy(s[1..], p)
  {
    var t := s[1..];
    forall y | y in t ensures p(y) != p(s[0]) {
      var k :| 0 <= k < |t| && t[k] == y;
      assert s[k + 1] == y;
    }
    forall i, j | 0 <= i < j < |t| ensures p(t[i]) != p(t[j]) {
      assert t[i] == s[i + 1] && t[j] == s[j + 1];
    }
  }

  lemma {:induction false} InsertDistinct<T, K>(x: T, s: seq<T>, key: T -> seq<int>, p: T -> K)
    requires DistinctBy(s, p)
    requires forall y :: y in s ==> p(y) != p(x)
    ensures DistinctBy(Insert(x, s, key), p)
    decreases |s|
  {
    if s != [] && !LexLe(key(x), key(s[0])) {
      HeadDistinct(s, p);
      assert forall y :: y in s[1..] ==> y in s;
      InsertDistinct(x, s[1..], key, p);
      var rest := Insert(x, s[1..], key);
      assert s[0] in s;
      forall y | y in rest ensures p(y) != p(s[0]) {
        InsertMember(x, s[1..], key, y);
        if y != x { assert y in s[1..]; }
      }
      ConsDistinct(s[0], rest, p);
    } else if s != [] {
      ConsDistinct(x, s, p);
    }
  }

  lemma {:induction false} SortByDistinct<T, K>(s: seq<T>, key: T -> seq<int>, p: T -> K)
    requires DistinctBy(s, p)
    ensures DistinctBy(SortBy(s, key), p)
    decreases |s|
  {
    if s != [] {
      HeadDistinct(s, p);
      SortByDistinct(s[1..], key, p);
      forall y | y in SortBy(s[1..], key) ensures p(y) != p(s[0]) {
        SortByMember(s[1..], key, y);
      }
      InsertDistinct(s[0], SortBy(s[1..], key), key, p);
    }
  }
}
