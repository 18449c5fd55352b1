/** The order of Go strings and sort.Strings: lexicographic, by the rank of each element. */
module Ordering {
  /** Ranks tell elements apart: the value of a byte, the code point of a character. */
  ghost predicate Ranking<T(!new)>(rank: T -> int) {
    forall x, y :: rank(x) == rank(y) ==> x == y
  }

  predicate Leq<T(==)>(rank: T -> int, a: seq<T>, b: seq<T>) {
    a == [] || (b != [] && (rank(a[0]) < rank(b[0]) || (a[0] == b[0] && Leq(rank, a[1..], b[1..]))))
  }

  predicate Less<T(==)>(rank: T -> int, a: seq<T>, b: seq<T>) {
    a != b && Leq(rank, a, b)
  }

  lemma {:induction false} LeqTotal<T(!new)>(rank: T -> int, a: seq<T>, b: seq<T>)
    requires Ranking(rank)
    ensures Leq(rank, a, b) || Leq(rank, b, a)
  {
    if a != [] && b != [] && a[0] == b[0] {
      LeqTotal(rank, a[1..], b[1..]);
    }
  }

  lemma {:induction false} LeqAntisymmetric<T(!new)>(rank: T -> int, a: seq<T>, b: seq<T>)
    requires Leq(rank, a, b) && Leq(rank, b, a)
    ensures a == b
  {
    if a != [] && b != [] {
      LeqAntisymmetric(rank, a[1..], b[1..]);
      assert a == [a[0]] + a[1..] && b == [b[0]] + b[1..];
    }
  }

  lemma {:induction false} LeqTransitive<T(!new)>(rank: T -> int, a: seq<T>, b: seq<T>, c: seq<T>)
    requires Leq(rank, a, b) && Leq(rank, b, c)
    ensures Leq(rank, a, c)
  {
    if a != [] && a[0] == b[0] == c[0] {
      LeqTransitive(rank, a[1..], b[1..], c[1..]);
    }
  }

  predicate IsLeast<T(==)>(rank: T -> int, s: set<seq<T>>, m: seq<T>) {
    m in s && forall x :: x in s ==> Leq(rank, m, x)
  }

  lemma {:induction false} LeastExists<T(!new)>(rank: T -> int, s: set<seq<T>>)
    requires Ranking(rank) && s != {}
    ensures exists m :: IsLeast(rank, s, m)
    decreases |s|
  {
    var m :| m in s;
    LeqTotal(rank, m, m);
    var rest := s - {m};
    if rest == {} {
      assert s == {m};
      assert IsLeast(rank, s, m);
    } else {
      LeastExists(rank, rest);
      var k :| IsLeast(rank, rest, k);
      LeqTotal(rank, m, k);
      var least := if Leq(rank, m, k) then m else k;
      forall x | x in s
        ensures Leq(rank, least, x)
      {
        if x in rest && Leq(rank, m, k) {
          LeqTransitive(rank, m, k, x);
        }
      }
      assert IsLeast(rank, s, least);
    }
  }

  lemma LeastUnique<T(!new)>(rank: T -> int, s: set<seq<T>>)
    ensures forall x, y :: IsLeast(rank, s, x) && IsLeast(rank, s, y) ==> x == y
  {
    forall x, y | IsLeast(rank, s, x) && IsLeast(rank, s, y)
      ensures x == y
    {
      LeqAntisymmetric(rank, x, y);
    }
  }

  function Least<T(==,!new)>(rank: T -> int, s: set<seq<T>>): (m: seq<T>)
    requires Ranking(rank) && s != {}
    ensures IsLeast(rank, s, m)
  {
    LeastExists(rank, s);
    LeastUnique(rank, s);
    var m :| IsLeast(rank, s, m);
    m
  }

  /** The elements of a set in increasing order: sort.Strings over distinct strings. */
  function Sorted<T(==,!new)>(rank: T -> int, s: set<seq<T>>): seq<seq<T>>
    requires Ranking(rank)
    decreases |s|
  {
    if s == {} then []
    else
      var m := Least(rank, s);
      [m] + Sorted(rank, s - {m})
  }

  predicate Increasing<T(==)>(rank: T -> int, xs: seq<seq<T>>) {
    forall i, j :: 0 <= i < j < |xs| ==> Less(rank, xs[i], xs[j])
  }

  lemma {:induction false} SortedElements<T(!new)>(rank: T -> int, s: set<seq<T>>)
    requires Ranking(rank)
    ensures forall x :: x in Sorted(rank, s) <==> x in s
    ensures |Sorted(rank, s)| == |s|
    decreases |s|
  {
    if s != {} {
      var m := Least(rank, s);
      SortedElements(rank, s - {m});
      assert s == {m} + (s - {m});
    }
  }

  lemma {:induction false} SortedIncreases<T(!new)>(rank: T -> int, s: set<seq<T>>)
    requires Ranking(rank)
    ensures Increasing(rank, Sorted(rank, s))
    decreases |s|
  {
    if s != {} {
      var m := Least(rank, s);
      var rest := Sorted(rank, s - {m});
      SortedIncreases(rank, s - {m});
      SortedElements(rank, s - {m});
      forall j | 0 <= j < |rest|
        ensures Less(rank, m, rest[j])
      {
        assert rest[j] in rest;
      }
    }
  }

  /** There is only one increasing list of given elements. */
  lemma {:induction false} SortedUnique<T(!new)>(rank: T -> int, s: set<seq<T>>, xs: seq<seq<T>>)
    requires Ranking(rank) && Increasing(rank, xs)
    requires forall x :: x in xs <==> x in s
    ensures xs == Sorted(rank, s)
    decreases |xs|
  {
    if xs == [] {
      assert s == {} by {
        assert forall x :: x !in s;
      }
    } else {
      var m := xs[0];
      assert m in xs;
      forall x | x in s
        ensures Leq(rank, m, x)
      {
        var i :| 0 <= i < |xs| && xs[i] == x;
        LeqTotal(rank, m, m);
      }
      LeqAntisymmetric(rank, m, Least(rank, s));
      TailElements(rank, s, xs);
      SortedUnique(rank, s - {m}, xs[1..]);
    }
  }

  lemma TailElements<T(!new)>(rank: T -> int, s: set<seq<T>>, xs: seq<seq<T>>)
    requires xs != [] && Increasing(rank, xs) && forall x :: x in xs <==> x in s
    ensures Increasing(rank, xs[1..])
    ensures forall x :: x in xs[1..] <==> x in s - {xs[0]}
  {
    forall x | x in xs[1..]
      ensures x in s - {xs[0]}
    {
      var i :| 0 <= i < |xs[1..]| && xs[1..][i] == x;
      assert xs[i + 1] == x && Less(rank, xs[0], xs[i + 1]);
      assert x in xs;
    }
    forall x | x in s - {xs[0]}
      ensures x in xs[1..]
    {
      assert x in xs;
      var i :| 0 <= i < |xs| && xs[i] == x;
      assert xs[1..][i - 1] == x;
    }
  }
}
