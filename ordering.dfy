/** Python's `sorted(..., reverse=True)` on a set of integers. */
module Ordering {

  predicate StrictlyDescending(s: seq<int>) {
    forall i, j | 0 <= i < j < |s| :: s[i] > s[j]
  }

  /** Some element of a non-empty set. */
  lemma PickElement<T>(s: set<T>) returns (x: T)
    requires |s| > 0
    ensures x in s
  {
    x :| x in s;
  }

  /** A finite non-empty set of integers has a largest element. */
  lemma {:induction false} HasMaximum(s: set<int>)
    requires |s| > 0
    ensures exists m :: m in s && forall y | y in s :: y <= m
  {
    var x := PickElement(s);
    if s != {x} {
      var rest := s - {x};
      assert |rest| > 0 by { assert |rest| == |s| - 1; }
      HasMaximum(rest);
      var m :| m in rest && forall y | y in rest :: y <= m;
      var top := if x > m then x else m;
      forall y | y in s ensures y <= top {
        if y != x { assert y in rest; }
      }
      assert top in s;
    } else {
      assert forall y | y in s :: y == x;
    }
  }

  /** The largest element of a non-empty set. */
  function Maximum(s: set<int>): (m: int)
    requires |s| > 0
    ensures m in s && forall y | y in s :: y <= m
  {
    HasMaximum(s);
    var m :| m in s && forall y | y in s :: y <= m;
    m
  }

  /** `sorted(list(s), reverse=True)`: the elements of `s`, each once, highest first. */
  function SortedDesc(s: set<int>): (r: seq<int>)
    ensures StrictlyDescending(r)
    ensures forall x :: x in r <==> x in s
    ensures |r| == |s|
    decreases |s|
  {
    if s == {} then []
    else
      var m := Maximum(s);
      var rest := SortedDesc(s - {m});
      assert |s - {m}| == |s| - 1;
      assert forall x | x in rest :: x < m;
      ConsDescending(m, rest);
      var r := [m] + rest;
      assert forall x :: x in r <==> x in s by {
        forall x
          ensures x in r <==> x in s
        {
          assert x in r <==> x == m || x in rest;
        }
      }
      r
  }

  /** Putting an element above all of a strictly descending sequence in front keeps it
      strictly descending. */
  lemma ConsDescending(m: int, rest: seq<int>)
    requires StrictlyDescending(rest)
    requires forall x | x in rest :: x < m
    ensures StrictlyDescending([m] + rest)
  {
    var r := [m] + rest;
    forall i, j | 0 <= i < j < |r|
      ensures r[i] > r[j]
    {
      assert r[j] == rest[j - 1] && rest[j - 1] in rest;
      if i > 0 {
        assert r[i] == rest[i - 1];
      }
    }
  }

  /** A strictly descending sequence starts with its largest element. */
  lemma DescendingHead(r: seq<int>)
    requires StrictlyDescending(r) && |r| > 0
    ensures forall y | y in r :: y <= r[0]
  {
    forall y | y in r
      ensures y <= r[0]
    {
      var j :| 0 <= j < |r| && r[j] == y;
      if j > 0 {
        assert r[0] > r[j];
      }
    }
  }

  /** The sorted list starts with the largest element of the set. */
  lemma SortedDescHead(s: set<int>)
    requires |s| > 0
    ensures SortedDesc(s)[0] in s
    ensures forall y | y in s :: y <= SortedDesc(s)[0]
  {
    var r := SortedDesc(s);
    DescendingHead(r);
    assert r[0] in r;
  }

  /** A non-empty sequence holds its first element. (A separate lemma, so that the branch of
      `DescendingUnique` where one side is empty checks no index it cannot reach.) */
  lemma FirstIsMember(s: seq<int>)
    ensures |s| > 0 ==> s[0] in s
  {
  }

  /** A strictly descending sequence is fixed by its elements: `SortedDesc` is the only such order. */
  lemma {:induction false} DescendingUnique(a: seq<int>, b: seq<int>)
    requires StrictlyDescending(a) && StrictlyDescending(b)
    requires forall x :: x in a <==> x in b
    ensures a == b
  {
    if a != [] && b != [] {
      assert a[0] in b && b[0] in a;
      assert a[0] >= b[0] && b[0] >= a[0];
      assert forall x :: x in a[1..] <==> x in b[1..] by {
        forall x
          ensures x in a[1..] <==> x in b[1..]
        {
          if x in a[1..] { assert x in a && x != a[0]; }
          if x in b[1..] { assert x in b && x != b[0]; }
        }
      }
      DescendingUnique(a[1..], b[1..]);
      assert a == [a[0]] + a[1..] && b == [b[0]] + b[1..];
    } else {
      FirstIsMember(a);
      FirstIsMember(b);
    }
  }
}
