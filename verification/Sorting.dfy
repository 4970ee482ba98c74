// Sorting by a total preorder, for the `ORDER BY` clauses.

module Sorting {
  import opened Sequences

  ghost predicate TotalPreorder<T(!new)>(le: (T, T) -> bool) {
    && (forall x, y :: le(x, y) || le(y, x))
    && (forall x, y, z :: le(x, y) && le(y, z) ==> le(x, z))
  }

  ghost predicate Sorted<T>(le: (T, T) -> bool, s: seq<T>) {
    forall i, j :: 0 <= i < j < |s| ==> le(s[i], s[j])
  }

  function Insert<T>(le: (T, T) -> bool, x: T, s: seq<T>): seq<T> {
    if s == [] || le(x, s[0]) then [x] + s else [s[0]] + Insert(le, x, s[1..])
  }

  function Sort<T>(le: (T, T) -> bool, s: seq<T>): seq<T> {
    if s == [] then [] else Insert(le, s[0], Sort(le, s[1..]))
  }

  lemma {:induction false} InsertPermutes<T>(le: (T, T) -> bool, x: T, s: seq<T>)
    ensures multiset(Insert(le, x, s)) == multiset{x} + multiset(s)
  {
    if s != [] && !le(x, s[0]) {
      InsertPermutes(le, x, s[1..]);
      assert s == [s[0]] + s[1..];
    }
  }

  lemma {:induction false} InsertSorted<T(!new)>(le: (T, T) -> bool, x: T, s: seq<T>)
    requires TotalPreorder(le) && Sorted(le, s)
    ensures Sorted(le, Insert(le, x, s))
  {
    if s != [] && !le(x, s[0]) {
      InsertSorted(le, x, s[1..]);
      InsertPermutes(le, x, s[1..]);
      var r := Insert(le, x, s[1..]);
      forall i | 0 <= i < |r| ensures le(s[0], r[i]) {
        assert r[i] in multiset(r);
        assert r[i] == x || r[i] in s[1..];
      }
    }
  }

  lemma {:induction false} SortSorts<T(!new)>(le: (T, T) -> bool, s: seq<T>)
    requires TotalPreorder(le)
    ensures Sorted(le, Sort(le, s)) && multiset(Sort(le, s)) == multiset(s)
  {
    if s != [] {
      SortSorts(le, s[1..]);
      InsertSorted(le, s[0], Sort(le, s[1..]));
      InsertPermutes(le, s[0], Sort(le, s[1..]));
      assert s == [s[0]] + s[1..];
    }
  }

  /** Sorting what is already in order moves nothing. */
  lemma {:induction false} SortOfSorted<T>(le: (T, T) -> bool, s: seq<T>)
    requires Sorted(le, s)
    ensures Sort(le, s) == s
  {
    if s != [] {
      SortOfSorted(le, s[1..]);
      assert s == [s[0]] + s[1..];
      if |s| > 1 { assert le(s[0], s[1]); }
    }
  }

  /** The order tells any two elements of s apart. */
  ghost predicate TellsApart<T(!new)>(le: (T, T) -> bool, s: seq<T>) {
    forall x, y :: x in s && y in s && le(x, y) && le(y, x) ==> x == y
  }

  lemma SameHead<T(!new)>(le: (T, T) -> bool, a: seq<T>, b: seq<T>)
    requires Sorted(le, a) && Sorted(le, b) && multiset(a) == multiset(b) && TellsApart(le, a) && a != []
    ensures b != [] && a[0] == b[0] && multiset(a[1..]) == multiset(b[1..])
  {
    SameMembers(a, b);
    assert a[0] in b;
    assert b[0] in a;
    var i :| 0 <= i < |a| && a[i] == b[0];
    var j :| 0 <= j < |b| && b[j] == a[0];
    assert a[0] == b[0];
    assert a == [a[0]] + a[1..] && b == [b[0]] + b[1..];
    assert multiset(a[1..]) == multiset(a) - multiset{a[0]};
  }

  /** Two orderings of the same elements agree when the order tells any two of them apart. */
  lemma {:induction false} SortedUnique<T(!new)>(le: (T, T) -> bool, a: seq<T>, b: seq<T>)
    requires Sorted(le, a) && Sorted(le, b) && multiset(a) == multiset(b) && TellsApart(le, a)
    ensures a == b
    decreases |a|
  {
    if a == [] {
      assert |multiset(b)| == 0;
    } else {
      SameHead(le, a, b);
      SortedUnique(le, a[1..], b[1..]);
      assert a == [a[0]] + a[1..] && b == [b[0]] + b[1..];
    }
  }

  ghost predicate Distinct<T>(s: seq<T>) { forall i, j :: 0 <= i < j < |s| ==> s[i] != s[j] }

  lemma {:induction false} DistinctCount<T>(s: seq<T>, x: T)
    requires Distinct(s)
    ensures multiset(s)[x] <= 1
    decreases |s|
  {
    if s != [] {
      DistinctCount(s[1..], x);
      assert s == [s[0]] + s[1..];
      if s[0] == x { assert x !in s[1..]; }
    }
  }

  lemma DistinctPermuted<T>(s: seq<T>, q: seq<T>)
    requires Distinct(s) && multiset(s) == multiset(q)
    ensures Distinct(q)
  {
    forall i, j | 0 <= i < j < |q| ensures q[i] != q[j] {
      if q[i] == q[j] {
        assert q == q[..i] + [q[i]] + q[i + 1..j] + [q[j]] + q[j + 1..];
        assert multiset(q)[q[i]] >= 2;
        DistinctCount(s, q[i]);
      }
    }
  }

  lemma SameMembers<T>(s: seq<T>, q: seq<T>)
    requires multiset(s) == multiset(q)
    ensures forall x :: x in s <==> x in q
  {
    forall x ensures x in s <==> x in q {
      assert x in s <==> x in multiset(s);
      assert x in q <==> x in multiset(q);
    }
  }

  lemma {:induction false} DistinctSize<T>(s: seq<T>, u: set<T>)
    requires Distinct(s) && forall x :: x in s ==> x in u
    ensures |s| <= |u|
    decreases |s|
  {
    if s != [] {
      DistinctSize(s[1..], u - {s[0]});
    }
  }

  // ----- rows told apart by a key

  ghost predicate KeysDiffer<T>(key: T -> string, s: seq<T>) {
    forall i, j :: 0 <= i < j < |s| ==> key(s[i]) != key(s[j])
  }

  lemma {:induction false} KeepKeys<T(!new)>(key: T -> string, p: T -> bool, s: seq<T>)
    requires KeysDiffer(key, s)
    ensures KeysDiffer(key, Keep(p, s))
  {
    if s != [] {
      KeepKeys(key, p, s[1..]);
      KeepHolds(p, s[1..]);
      forall x | x in Keep(p, s[1..]) ensures key(x) != key(s[0]) { var i :| 1 <= i < |s| && s[i] == x; }
    }
  }

  lemma PermutedKeys<T>(key: T -> string, s: seq<T>, q: seq<T>)
    requires KeysDiffer(key, s) && multiset(s) == multiset(q)
    ensures KeysDiffer(key, q)
  {
    DistinctPermuted(s, q);
    SameMembers(s, q);
    forall i, j | 0 <= i < j < |q| ensures key(q[i]) != key(q[j]) {
      assert q[i] in s && q[j] in s && q[i] != q[j];
      var a :| 0 <= a < |s| && s[a] == q[i];
      var b :| 0 <= b < |s| && s[b] == q[j];
      assert a != b;
    }
  }
}
