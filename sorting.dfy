/** The order in which an SQL `ORDER BY` returns the rows of a finite table:
    a finite set listed by a total order. Used for the queries that sort. */
module Sorting {

  ghost predicate IsTotalOrder<T(!new)>(le: (T, T) -> bool) {
    && (forall x :: le(x, x))
    && (forall x, y :: le(x, y) && le(y, x) ==> x == y)
    && (forall x, y, z :: le(x, y) && le(y, z) ==> le(x, z))
    && (forall x, y :: le(x, y) || le(y, x))
  }

  ghost predicate SortedBy<T>(s: seq<T>, le: (T, T) -> bool) {
    forall i, j :: 0 <= i < j < |s| ==> le(s[i], s[j])
  }

  ghost predicate Distinct<T>(s: seq<T>) {
    forall i, j :: 0 <= i < j < |s| ==> s[i] != s[j]
  }

  ghost predicate IsLeast<T>(m: T, s: set<T>, le: (T, T) -> bool) {
    m in s && forall y :: y in s ==> le(m, y)
  }

  /** Every non-empty finite set has a least element under a total order. */
  lemma {:induction false} LeastExists<T(!new)>(s: set<T>, le: (T, T) -> bool)
    requires s != {} && IsTotalOrder(le)
    ensures exists m :: IsLeast(m, s, le)
    decreases |s|
  {
    var x :| x in s;
    if s == {x} {
      assert IsLeast(x, s, le);
    } else {
      LeastExists(s - {x}, le);
      var m :| IsLeast(m, s - {x}, le);
      if le(x, m) {
        assert IsLeast(x, s, le);
      } else {
        assert IsLeast(m, s, le);
      }
    }
  }

  /** The elements of `s`, each once, in ascending `le` order. */
  ghost function SortSet<T(!new)>(s: set<T>, le: (T, T) -> bool): (r: seq<T>)
    requires IsTotalOrder(le)
    ensures |r| == |s|
    ensures forall x :: x in r <==> x in s
    ensures SortedBy(r, le)
    ensures Distinct(r)
    decreases |s|
  {
    if s == {} then []
    else
      LeastExists(s, le);
      var m :| IsLeast(m, s, le);
      var rest := SortSet(s - {m}, le);
      assert forall i :: 0 <= i < |rest| ==> rest[i] in s - {m};
      [m] + rest
  }

  /** A finite set of integers in ascending order (the order of a primary key). */
  ghost function Ascending(s: set<int>): (r: seq<int>)
    ensures |r| == |s| && Distinct(r)
    ensures forall x :: x in r <==> x in s
    ensures forall i, j :: 0 <= i < j < |r| ==> r[i] < r[j]
  {
    var le := (a: int, b: int) => a <= b;
    assert IsTotalOrder(le);
    SortSet(s, le)
  }

  /** The values a list holds. */
  function Elements(s: seq<int>): set<int> {
    set x | x in s
  }

  /** A list has as many distinct values as entries exactly when it repeats
      none. */
  lemma {:induction false} ElementsCard(s: seq<int>)
    ensures |Elements(s)| <= |s|
    ensures |Elements(s)| == |s| <==> Distinct(s)
  {
    if s != [] {
      var t := s[1..];
      ElementsCard(t);
      assert Elements(s) == {s[0]} + Elements(t);
      if s[0] in t {
        assert Elements(s) == Elements(t);
        var j :| 0 <= j < |t| && t[j] == s[0];
        assert s[0] == s[j + 1];
      } else {
        assert |Elements(s)| == |Elements(t)| + 1;
        if Distinct(t) {
          forall i, j | 0 <= i < j < |s| ensures s[i] != s[j] {
            if i > 0 {
              assert s[i] == t[i - 1] && s[j] == t[j - 1];
            } else {
              assert s[j] == t[j - 1];
            }
          }
        } else {
          var i, j :| 0 <= i < j < |t| && t[i] == t[j];
          assert s[i + 1] == s[j + 1];
        }
      }
    }
  }
}
