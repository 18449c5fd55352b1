/** sort.Slice: some permutation in which no later element is before an earlier one. */
module Sorting {
  import opened Ordering
  import Json

  /** A strict weak order: what sort.Slice asks of its comparison. */
  ghost predicate Comparison<T(!new)>(before: (T, T) -> bool) {
    && (forall a, b :: before(a, b) ==> !before(b, a))
    && (forall a, b, c :: !before(b, a) && !before(c, b) ==> !before(c, a))
  }

  ghost predicate InOrder<T>(before: (T, T) -> bool, s: seq<T>) {
    forall i, j :: 0 <= i < j < |s| ==> !before(s[j], s[i])
  }

  method Insert<T(!new)>(before: (T, T) -> bool, s: seq<T>, x: T) returns (r: seq<T>)
    requires Comparison(before) && InOrder(before, s)
    ensures InOrder(before, r) && multiset(r) == multiset(s) + multiset{x}
  {
    var k := 0;
    while k < |s| && !before(x, s[k])
      invariant k <= |s|
      invariant forall i :: 0 <= i < k ==> !before(x, s[i])
    {
      k := k + 1;
    }
    r := s[..k] + [x] + s[k..];
    assert s == s[..k] + s[k..];
    forall j | k <= j < |s|
      ensures !before(s[j], x)
    {
      assert before(x, s[k]);
      if j > k {
        assert !before(s[j], s[k]) && !before(s[k], x);
      }
    }
  }

  method SortSlice<T(!new)>(before: (T, T) -> bool, items: seq<T>) returns (r: seq<T>)
    requires Comparison(before)
    ensures InOrder(before, r) && multiset(r) == multiset(items)
  {
    r := [];
    var k := 0;
    while k < |items|
      invariant k <= |items| && InOrder(before, r) && multiset(r) == multiset(items[..k])
    {
      assert items[..k + 1] == items[..k] + [items[k]];
      r := Insert(before, r, items[k]);
      k := k + 1;
    }
    assert items[..k] == items;
  }

  // ----- sorting by a name that tells the elements apart -----

  predicate NameBefore<T>(name: T -> string, a: T, b: T) {
    Less(Json.CharRank, name(a), name(b))
  }

  function ByName<T(!new)>(name: T -> string): (before: (T, T) -> bool)
    ensures Comparison(before)
    ensures forall a, b :: before(a, b) <==> NameBefore(name, a, b)
  {
    Json.RankingChars();
    var before := (a: T, b: T) => NameBefore(name, a, b);
    forall a, b | before(a, b)
      ensures !before(b, a)
    {
      if before(b, a) {
        LeqAntisymmetric(Json.CharRank, name(a), name(b));
      }
    }
    forall a, b, c | !before(b, a) && !before(c, b)
      ensures !before(c, a)
    {
      NotLess(name(b), name(a));
      NotLess(name(c), name(b));
      LeqTransitive(Json.CharRank, name(a), name(b), name(c));
      if before(c, a) {
        LeqAntisymmetric(Json.CharRank, name(a), name(c));
      }
    }
    before
  }

  lemma NotLess(x: string, y: string)
    ensures !Less(Json.CharRank, x, y) <==> Leq(Json.CharRank, y, x)
  {
    Json.RankingChars();
    LeqTotal(Json.CharRank, x, y);
    if Leq(Json.CharRank, x, y) && Leq(Json.CharRank, y, x) {
      LeqAntisymmetric(Json.CharRank, x, y);
    }
  }

  function Names<T>(name: T -> string, items: seq<T>): (r: seq<string>)
    ensures |r| == |items| && forall i :: 0 <= i < |items| ==> r[i] == name(items[i])
  {
    if items == [] then [] else [name(items[0])] + Names(name, items[1..])
  }

  ghost predicate DistinctNames<T>(name: T -> string, items: seq<T>) {
    forall i, j :: 0 <= i < j < |items| ==> name(items[i]) != name(items[j])
  }

  /** Elements in order whose names differ: their names are the sorted set of names, whatever the sort did. */
  lemma OrderedNames<T(!new)>(name: T -> string, before: (T, T) -> bool, items: seq<T>, all: set<string>)
    requires forall a, b :: NameBefore(name, a, b) ==> before(a, b)
    requires InOrder(before, items) && DistinctNames(name, items)
    requires forall n :: n in Names(name, items) <==> n in all
    requires Ranking(Json.CharRank)
    ensures Names(name, items) == Sorted(Json.CharRank, all)
  {
    var ns := Names(name, items);
    forall i, j | 0 <= i < j < |ns|
      ensures Less(Json.CharRank, ns[i], ns[j])
    {
      assert !before(items[j], items[i]);
      NotLess(ns[j], ns[i]);
    }
    SortedUnique(Json.CharRank, all, ns);
  }
}
