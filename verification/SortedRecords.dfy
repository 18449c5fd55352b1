/** The records of an export in the order of their keys: one set of records, one list. */
module SortedRecords {
  import opened Wrappers
  import opened Ordering
  import opened Json
  import opened MatchKey
  import opened Sorting
  import opened Classification
  import DiffTheorems
  import Container

  function IdOf(e: Env, r: Record): string
    requires KeyOf(e, r).Ok?
  {
    KeyString(KeyOf(e, r).value)
  }

  /** The first record without a key, or with a key already seen. */
  function FirstUnfit(e: Env, rs: seq<Record>, seen: set<string>): Option<Error> {
    if rs == [] then None
    else if KeyOf(e, rs[0]).Err? then Some(Container.InvalidRequest)
    else if IdOf(e, rs[0]) in seen then Some(Container.DuplicateKey)
    else FirstUnfit(e, rs[1..], seen + {IdOf(e, rs[0])})
  }

  function SortedKeys(e: Env, rs: seq<Record>): (ids: seq<string>)
    ensures forall i :: 0 <= i < |ids| ==> Count(e, rs, ids[i]) > 0
    ensures forall id :: id in ids <==> Count(e, rs, id) > 0
  {
    RankingChars();
    SortedElements(CharRank, Ids(e, rs));
    forall id
      ensures id in Ids(e, rs) <==> Count(e, rs, id) > 0
    {
      IdsCount(e, rs, id);
    }
    var ids := Sorted(CharRank, Ids(e, rs));
    assert forall i :: 0 <= i < |ids| ==> ids[i] in ids;
    ids
  }

  function RecordsAt(e: Env, rs: seq<Record>, ids: seq<string>): (out: seq<Record>)
    requires forall i :: 0 <= i < |ids| ==> Count(e, rs, ids[i]) > 0
    ensures |out| == |ids| && forall i :: 0 <= i < |ids| ==> out[i] == First(e, rs, ids[i])
  {
    seq(|ids|, i requires 0 <= i < |ids| => First(e, rs, ids[i]))
  }

  function InKeyOrder(e: Env, rs: seq<Record>): seq<Record> {
    RecordsAt(e, rs, SortedKeys(e, rs))
  }

  function SortedSpec(e: Env, rs: seq<Record>): Result<seq<Record>, Error> {
    match FirstUnfit(e, rs, {})
    case Some(x) => Err(x)
    case None => Ok(InKeyOrder(e, rs))
  }

  /** Every record has a key, and no two the same. */
  ghost predicate Distinct(e: Env, rs: seq<Record>) {
    && Keyed(e, rs)
    && forall i, j :: 0 <= i < j < |rs| ==> KeyOf(e, rs[i]).Ok? && KeyOf(e, rs[j]).Ok? && IdOf(e, rs[i]) != IdOf(e, rs[j])
  }

  ghost predicate Unseen(e: Env, rs: seq<Record>, seen: set<string>) {
    forall i :: 0 <= i < |rs| && KeyOf(e, rs[i]).Ok? ==> IdOf(e, rs[i]) !in seen
  }

  /** The loop accepts exactly the lists whose records all have keys of their own. */
  lemma {:induction false} FitExact(e: Env, rs: seq<Record>, seen: set<string>)
    ensures FirstUnfit(e, rs, seen) == None <==> Distinct(e, rs) && Unseen(e, rs, seen)
    decreases |rs|
  {
    if rs != [] {
      var tail := rs[1..];
      assert forall i :: 0 < i < |rs| ==> rs[i] == tail[i - 1];
      assert forall i :: 0 <= i < |tail| ==> tail[i] == rs[i + 1];
      if KeyOf(e, rs[0]).Ok? {
        FitExact(e, tail, seen + {IdOf(e, rs[0])});
        FitCons(e, rs, seen);
      }
    }
  }

  lemma {:induction false} FitCons(e: Env, rs: seq<Record>, seen: set<string>)
    requires rs != [] && KeyOf(e, rs[0]).Ok?
    ensures Distinct(e, rs) && Unseen(e, rs, seen) <==>
      IdOf(e, rs[0]) !in seen && Distinct(e, rs[1..]) && Unseen(e, rs[1..], seen + {IdOf(e, rs[0])})
  {
    var tail := rs[1..];
    assert forall i :: 0 < i < |rs| ==> rs[i] == tail[i - 1];
    assert forall i :: 0 <= i < |tail| ==> tail[i] == rs[i + 1];
  }

  // ----- the loop and the sort -----

  datatype KeyedRecord = KeyedRecord(id: string, record: Record)

  function NameOf(k: KeyedRecord): string {
    k.id
  }

  /** The items of the loop so far: each record with its key. */
  ghost predicate Paired(e: Env, rs: seq<Record>, items: seq<KeyedRecord>) {
    && |items| == |rs|
    && forall i :: 0 <= i < |rs| ==> items[i].record == rs[i] && Has(e, rs[i], items[i].id)
  }

  lemma {:induction false} PairedMore(e: Env, rs: seq<Record>, k: nat, items: seq<KeyedRecord>, id: string)
    requires k < |rs| && Paired(e, rs[..k], items) && Has(e, rs[k], id)
    ensures Paired(e, rs[..k + 1], items + [KeyedRecord(id, rs[k])])
  {
  }

  method CollectKeyed(e: Env, records: seq<Record>) returns (r: Result<seq<KeyedRecord>, Error>)
    ensures match FirstUnfit(e, records, {})
      case Some(x) => r == Err(x)
      case None => r.Ok? && Paired(e, records, r.value)
  {
    var items: seq<KeyedRecord> := [];
    var seen: set<string> := {};
    var k := 0;
    while k < |records|
      invariant k <= |records| && Paired(e, records[..k], items)
      invariant FirstUnfit(e, records, {}) == FirstUnfit(e, records[k..], seen)
    {
      var record := records[k];
      assert records[k..][0] == record && records[k..][1..] == records[k + 1..];
      var key := KeyOf(e, record);
      if key.Err? {
        return Err(Container.InvalidRequest);
      }
      var id := KeyString(key.value);
      if id in seen {
        return Err(Container.DuplicateKey);
      }
      seen := seen + {id};
      PairedMore(e, records, k, items, id);
      items := items + [KeyedRecord(id, record)];
      k := k + 1;
    }
    assert records[..k] == records;
    r := Ok(items);
  }

  lemma {:induction false} PairedDistinct(e: Env, rs: seq<Record>, items: seq<KeyedRecord>)
    requires Distinct(e, rs) && Paired(e, rs, items)
    ensures DistinctNames(NameOf, items)
    ensures forall id :: id in Names(NameOf, items) <==> id in Ids(e, rs)
  {
    forall id
      ensures id in Names(NameOf, items) <==> id in Ids(e, rs)
    {
      PairedName(e, rs, items, id);
    }
  }

  lemma {:induction false} PairedName(e: Env, rs: seq<Record>, items: seq<KeyedRecord>, id: string)
    requires Paired(e, rs, items)
    ensures id in Names(NameOf, items) <==> id in Ids(e, rs)
  {
    var names := Names(NameOf, items);
    IdsCount(e, rs, id);
    if id in names {
      var i :| 0 <= i < |names| && names[i] == id;
      CountOfMember(e, rs, i, id);
    }
    if Count(e, rs, id) > 0 {
      var r := First(e, rs, id);
      var i :| 0 <= i < |rs| && rs[i] == r;
      assert names[i] == items[i].id && Has(e, rs[i], items[i].id);
    }
  }

  lemma {:induction false} SortedPairs(e: Env, rs: seq<Record>, items: seq<KeyedRecord>, sorted: seq<KeyedRecord>)
    requires Distinct(e, rs) && Paired(e, rs, items)
    requires multiset(sorted) == multiset(items) && InOrder(ByName(NameOf), sorted)
    ensures Names(NameOf, sorted) == SortedKeys(e, rs)
    ensures forall i :: 0 <= i < |sorted| ==> sorted[i].record in rs && Has(e, sorted[i].record, sorted[i].id)
  {
    RankingChars();
    PairedDistinct(e, rs, items);
    PermutedNames(items, sorted);
    OrderedNames(NameOf, ByName(NameOf), sorted, Ids(e, rs));
    forall i | 0 <= i < |sorted|
      ensures sorted[i].record in rs && Has(e, sorted[i].record, sorted[i].id)
    {
      assert sorted[i] in multiset(items);
      var j :| 0 <= j < |items| && items[j] == sorted[i];
      assert items[j].record == rs[j];
    }
  }

  /** A permutation of items whose names differ: the same names, and they still differ. */
  lemma {:induction false} PermutedNames(items: seq<KeyedRecord>, sorted: seq<KeyedRecord>)
    requires DistinctNames(NameOf, items) && multiset(sorted) == multiset(items)
    ensures DistinctNames(NameOf, sorted)
    ensures forall id :: id in Names(NameOf, sorted) <==> id in Names(NameOf, items)
  {
    forall i, j | 0 <= i < j < |sorted|
      ensures NameOf(sorted[i]) != NameOf(sorted[j])
    {
      DifferentPlaces(items, sorted, i, j);
    }
    forall id
      ensures id in Names(NameOf, sorted) <==> id in Names(NameOf, items)
    {
      SameNames(items, sorted, id);
      SameNames(sorted, items, id);
    }
  }

  lemma {:induction false} SameNames(items: seq<KeyedRecord>, sorted: seq<KeyedRecord>, id: string)
    requires multiset(sorted) == multiset(items)
    ensures id in Names(NameOf, sorted) ==> id in Names(NameOf, items)
  {
    var names := Names(NameOf, sorted);
    if id in names {
      var i :| 0 <= i < |names| && names[i] == id;
      assert sorted[i] in multiset(items);
      var j :| 0 <= j < |items| && items[j] == sorted[i];
      assert Names(NameOf, items)[j] == id;
    }
  }

  lemma {:induction false} DifferentPlaces(items: seq<KeyedRecord>, sorted: seq<KeyedRecord>, i: nat, j: nat)
    requires DistinctNames(NameOf, items) && multiset(sorted) == multiset(items) && i < j < |sorted|
    ensures NameOf(sorted[i]) != NameOf(sorted[j])
  {
    assert sorted[i] in multiset(items) && sorted[j] in multiset(items);
    var a :| 0 <= a < |items| && items[a] == sorted[i];
    var b :| 0 <= b < |items| && items[b] == sorted[j];
    if a == b {
      TwiceIn(sorted, i, j);
      OnceIn(items, a);
    }
  }

  lemma {:induction false} TwiceIn(s: seq<KeyedRecord>, i: nat, j: nat)
    requires i < j < |s| && s[i] == s[j]
    ensures multiset(s)[s[i]] >= 2
  {
    var x, y := s[..j], s[j..];
    assert s == x + y;
    assert s[i] == x[i] && s[j] == y[0];
    assert multiset(s) == multiset(x) + multiset(y);
  }

  lemma {:induction false} OnceIn(s: seq<KeyedRecord>, i: nat)
    requires DistinctNames(NameOf, s) && i < |s|
    ensures multiset(s)[s[i]] == 1
  {
    var x, y := s[..i], s[i + 1..];
    assert s == x + [s[i]] + y;
    assert s[i] !in x && s[i] !in y;
    assert multiset(s) == multiset(x) + multiset{s[i]} + multiset(y);
  }

  /** Distinct keys: the record with a key is the first and only one. */
  lemma {:induction false} TheRecord(e: Env, rs: seq<Record>, r: Record, id: string)
    requires Distinct(e, rs) && r in rs && Has(e, r, id)
    ensures Count(e, rs, id) == 1 && First(e, rs, id) == r
  {
    var i :| 0 <= i < |rs| && rs[i] == r;
    CountOfMember(e, rs, i, id);
    CountsOne(e, rs, id);
    DiffTheorems.OnlyOne(e, rs, i, id);
  }

  lemma {:induction false} NotBoth(e: Env, rs: seq<Record>, i: nat, j: nat, id: string)
    requires Distinct(e, rs) && i < j < |rs|
    ensures !Has(e, rs[i], id) || !Has(e, rs[j], id)
  {
  }

  lemma {:induction false} CountsOne(e: Env, rs: seq<Record>, id: string)
    requires Distinct(e, rs)
    ensures Count(e, rs, id) <= 1
  {
    if rs != [] {
      var tail := rs[1..];
      assert forall i :: 0 <= i < |tail| ==> tail[i] == rs[i + 1];
      CountsOne(e, tail, id);
      if Count(e, tail, id) > 0 {
        var r := First(e, tail, id);
        var i :| 0 <= i < |tail| && tail[i] == r;
        NotBoth(e, rs, 0, i + 1, id);
      }
    }
  }

  /** sortedRecords: refuses records without a key and repeated keys, and sorts the rest by key. */
  method SortRecords(e: Env, records: seq<Record>) returns (r: Result<seq<Record>, Error>)
    ensures r == SortedSpec(e, records)
  {
    var items := CollectKeyed(e, records);
    if items.Err? {
      return Err(items.error);
    }
    FitExact(e, records, {});
    var sorted := SortSlice(ByName(NameOf), items.value);
    SortedPairs(e, records, items.value, sorted);
    var out := Unkeyed(sorted);
    SortedAre(e, records, sorted, out);
    r := Ok(out);
  }

  method Unkeyed(items: seq<KeyedRecord>) returns (out: seq<Record>)
    ensures |out| == |items| && forall i :: 0 <= i < |items| ==> out[i] == items[i].record
  {
    out := [];
    var k := 0;
    while k < |items|
      invariant k <= |items| && |out| == k && forall i :: 0 <= i < k ==> out[i] == items[i].record
    {
      out := out + [items[k].record];
      k := k + 1;
    }
  }

  lemma {:induction false} SortedAre(e: Env, rs: seq<Record>, sorted: seq<KeyedRecord>, out: seq<Record>)
    requires Distinct(e, rs) && Names(NameOf, sorted) == SortedKeys(e, rs)
    requires forall i :: 0 <= i < |sorted| ==> sorted[i].record in rs && Has(e, sorted[i].record, sorted[i].id)
    requires |out| == |sorted| && forall i :: 0 <= i < |sorted| ==> out[i] == sorted[i].record
    ensures out == InKeyOrder(e, rs)
  {
    forall i | 0 <= i < |sorted|
      ensures Count(e, rs, sorted[i].id) > 0 && sorted[i].record == First(e, rs, sorted[i].id)
    {
      TheRecord(e, rs, sorted[i].record, sorted[i].id);
    }
    Listed(e, rs, sorted, out, SortedKeys(e, rs));
  }

  lemma {:induction false} Listed(e: Env, rs: seq<Record>, sorted: seq<KeyedRecord>, out: seq<Record>, ids: seq<string>)
    requires Names(NameOf, sorted) == ids && |out| == |sorted|
    requires forall i :: 0 <= i < |ids| ==> Count(e, rs, ids[i]) > 0
    requires forall i :: 0 <= i < |sorted| ==>
      out[i] == sorted[i].record && Count(e, rs, sorted[i].id) > 0 && sorted[i].record == First(e, rs, sorted[i].id)
    ensures out == RecordsAt(e, rs, ids)
  {
  }

  /** As many records come out as went in. */
  lemma {:induction false} SortedLength(e: Env, rs: seq<Record>)
    requires Distinct(e, rs)
    ensures |InKeyOrder(e, rs)| == |rs|
  {
    RankingChars();
    SortedElements(CharRank, Ids(e, rs));
    IdsSize(e, rs);
  }

  lemma {:induction false} IdsSize(e: Env, rs: seq<Record>)
    requires Distinct(e, rs)
    ensures |Ids(e, rs)| == |rs|
  {
    if rs != [] {
      HeadIsNew(e, rs);
      IdsSize(e, rs[1..]);
    }
  }

  lemma {:induction false} TailDistinct(e: Env, rs: seq<Record>)
    requires Distinct(e, rs) && rs != []
    ensures Distinct(e, rs[1..])
  {
    var tail := rs[1..];
    assert forall i :: 0 <= i < |tail| ==> tail[i] == rs[i + 1];
  }

  lemma {:induction false} HeadIsNew(e: Env, rs: seq<Record>)
    requires Distinct(e, rs) && rs != []
    ensures Distinct(e, rs[1..]) && IdOf(e, rs[0]) !in Ids(e, rs[1..])
  {
    TailDistinct(e, rs);
    var tail, id := rs[1..], IdOf(e, rs[0]);
    IdsCount(e, tail, id);
    if Count(e, tail, id) > 0 {
      var r := First(e, tail, id);
      var i :| 0 <= i < |tail| && tail[i] == r;
      NotBoth(e, rs, 0, i + 1, id);
    }
  }

  /** The same records in another order are exported as the same list. */
  lemma {:induction false} OneListPerSet(e: Env, rs: seq<Record>, qs: seq<Record>)
    requires EnvOk(e) && DiffTheorems.SameRecords(rs, qs) && Distinct(e, rs)
    ensures InKeyOrder(e, rs) == InKeyOrder(e, qs)
  {
    forall id
      ensures id in Ids(e, rs) <==> id in Ids(e, qs)
    {
      IdsCount(e, rs, id);
      IdsCount(e, qs, id);
      DiffTheorems.CountPermuted(e, rs, qs, id);
    }
    assert Ids(e, rs) == Ids(e, qs);
    var ids := SortedKeys(e, rs);
    forall i | 0 <= i < |ids|
      ensures Count(e, qs, ids[i]) > 0 && First(e, rs, ids[i]) == First(e, qs, ids[i])
    {
      CountsOne(e, rs, ids[i]);
      DiffTheorems.FirstPermuted(e, rs, qs, ids[i]);
    }
  }

  lemma {:induction false} PlacedBy(e: Env, rs: seq<Record>, k: nat)
    requires Distinct(e, rs) && k < |SortedKeys(e, rs)|
    ensures var r := InKeyOrder(e, rs)[k];
      r in rs && Has(e, r, SortedKeys(e, rs)[k])
  {
  }

  lemma {:induction false} PlaceOf(e: Env, rs: seq<Record>, r: Record) returns (k: nat)
    requires Distinct(e, rs) && r in rs
    ensures k < |InKeyOrder(e, rs)| && InKeyOrder(e, rs)[k] == r
  {
    var i :| 0 <= i < |rs| && rs[i] == r;
    var id := IdOf(e, r);
    TheRecord(e, rs, r, id);
    var ids := SortedKeys(e, rs);
    k :| 0 <= k < |ids| && ids[k] == id;
  }

  /** The list that is exported: the records, each once, in the order of their keys. */
  lemma {:induction false} InKeyOrderIsSorted(e: Env, rs: seq<Record>)
    requires Distinct(e, rs)
    ensures var sorted := InKeyOrder(e, rs);
      && |sorted| == |rs| && Keyed(e, sorted) && (forall r :: r in sorted <==> r in rs)
      && forall i, j :: 0 <= i < j < |sorted| ==>
           KeyOf(e, sorted[i]).Ok? && KeyOf(e, sorted[j]).Ok? && Less(CharRank, IdOf(e, sorted[i]), IdOf(e, sorted[j]))
  {
    RankingChars();
    SortedLength(e, rs);
    SortedIncreases(CharRank, Ids(e, rs));
    var sorted := InKeyOrder(e, rs);
    forall k | 0 <= k < |sorted|
      ensures sorted[k] in rs && Has(e, sorted[k], SortedKeys(e, rs)[k])
    {
      PlacedBy(e, rs, k);
    }
    forall r | r in rs
      ensures r in sorted
    {
      var k := PlaceOf(e, rs, r);
    }
  }
}
