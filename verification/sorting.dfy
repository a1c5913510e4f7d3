/** Sorting a list by a comparator, as `List.sort` does: the result is a
    permutation of the input that is ordered by the comparator. Insertion
    places an element after every element it does not precede, so equal
    elements keep their input order, as in Java's stable sort. */
module Sorting {

  /** `le(a, b)`: `a` may come before `b`. A comparator is usable when this
      relation is total and transitive. */
  ghost predicate TotalPreorder<T(!new)>(le: (T, T) -> bool) {
    && (forall a, b :: le(a, b) || le(b, a))
    && (forall a, b, c :: le(a, b) && le(b, c) ==> le(a, c))
  }

  ghost predicate SortedBy<T>(s: seq<T>, le: (T, T) -> bool) {
    forall i, j :: 0 <= i < j < |s| ==> le(s[i], s[j])
  }

  /** Inserts `x` in front of the first element that must come after it. */
  function Insert<T>(x: T, s: seq<T>, le: (T, T) -> bool): (r: seq<T>)
    ensures multiset(r) == multiset(s) + multiset{x}
    ensures |r| == |s| + 1
  {
    if s == [] then [x]
    else if !le(s[0], x) then [x] + s
    else
      assert s == [s[0]] + s[1..];
      [s[0]] + Insert(x, s[1..], le)
  }

  function SortBy<T>(s: seq<T>, le: (T, T) -> bool): (r: seq<T>)
    ensures multiset(r) == multiset(s)
    ensures |r| == |s|
  {
    if s == [] then []
    else
      assert s == s[..|s| - 1] + [s[|s| - 1]];
      Insert(s[|s| - 1], SortBy(s[..|s| - 1], le), le)
  }

  lemma {:induction false} InsertSorted<T(!new)>(x: T, s: seq<T>, le: (T, T) -> bool)
    requires TotalPreorder(le)
    requires SortedBy(s, le)
    ensures SortedBy(Insert(x, s, le), le)
  {
    if s == [] {
    } else if !le(s[0], x) {
      InsertFront(x, s, le);
    } else {
      InsertSorted(x, s[1..], le);
      InsertBehind(x, s, le);
    }
  }

  /** `x` placed in front of a sorted list whose head must come after it. */
  lemma InsertFront<T(!new)>(x: T, s: seq<T>, le: (T, T) -> bool)
    requires TotalPreorder(le)
    requires SortedBy(s, le)
    requires s != [] && !le(s[0], x)
    ensures SortedBy([x] + s, le)
  {
    assert le(x, s[0]);
    var r := [x] + s;
    forall i, j | 0 <= i < j < |r| ensures le(r[i], r[j]) {
      if i == 0 && j > 1 {
        assert le(s[0], s[j - 1]);
      }
    }
  }

  /** Everything the insertion into the tail holds may follow the head. */
  lemma HeadFirst<T(!new)>(x: T, s: seq<T>, le: (T, T) -> bool)
    requires SortedBy(s, le)
    requires s != [] && le(s[0], x)
    ensures forall j :: 0 <= j < |Insert(x, s[1..], le)| ==> le(s[0], Insert(x, s[1..], le)[j])
  {
    var tail := Insert(x, s[1..], le);
    forall j | 0 <= j < |tail| ensures le(s[0], tail[j]) {
      assert tail[j] in multiset(tail);
      assert tail[j] in multiset(s[1..]) || tail[j] == x;
      if tail[j] != x {
        var k :| 0 <= k < |s[1..]| && s[1..][k] == tail[j];
        assert le(s[0], s[k + 1]);
      }
    }
  }

  /** `x` inserted behind the head of a sorted list, into a sorted tail. */
  lemma InsertBehind<T(!new)>(x: T, s: seq<T>, le: (T, T) -> bool)
    requires SortedBy(s, le)
    requires s != [] && le(s[0], x)
    requires SortedBy(Insert(x, s[1..], le), le)
    ensures SortedBy(Insert(x, s, le), le)
  {
    var tail := Insert(x, s[1..], le);
    HeadFirst(x, s, le);
    var r := [s[0]] + tail;
    assert r == Insert(x, s, le);
    forall i, j | 0 <= i < j < |r| ensures le(r[i], r[j]) {
      if i == 0 {
        assert r[j] == tail[j - 1];
      } else {
        assert r[i] == tail[i - 1] && r[j] == tail[j - 1];
      }
    }
  }

  /** `SortBy` returns a sorted permutation of its input. */
  lemma {:induction false} SortBySorted<T(!new)>(s: seq<T>, le: (T, T) -> bool)
    requires TotalPreorder(le)
    ensures SortedBy(SortBy(s, le), le)
    ensures multiset(SortBy(s, le)) == multiset(s)
  {
    if s != [] {
      SortBySorted(s[..|s| - 1], le);
      InsertSorted(s[|s| - 1], SortBy(s[..|s| - 1], le), le);
    }
  }

  /** Sorting neither adds nor drops an element. */
  lemma SortByMembers<T>(s: seq<T>, le: (T, T) -> bool)
    ensures forall x :: x in SortBy(s, le) <==> x in s
  {
    var r := SortBy(s, le);
    forall x ensures x in r <==> x in s {
      assert x in r <==> x in multiset(r);
      assert x in s <==> x in multiset(s);
    }
  }
}
