/**
 Reconciliation of two lists of records: every key of either side gets one item, with a
 status that its multiplicities and the comparison decide, whatever order anything comes in.
 */
module Classification {
  import opened Sequences
  import opened Wrappers
  import opened Ordering
  import opened Json
  import opened MatchKey
  import opened Sorting
  import Compare

  datatype Status = Identical | Collision | MissingLocal | MissingIncoming | Ambiguous

  datatype Detail = NoDetail | RepeatsLocally | RepeatsInPackage

  datatype Item = Item(
    key: Key,
    status: Status,
    local: Option<Record>,
    incoming: Option<Record>,
    differences: seq<Compare.FieldDiff>,
    detail: Detail)

  // ----- records by key -----

  predicate Has(e: Env, r: Record, id: string) {
    KeyOf(e, r).Ok? && KeyString(KeyOf(e, r).value) == id
  }

  predicate Keyed(e: Env, rs: seq<Record>) {
    forall i :: 0 <= i < |rs| ==> KeyOf(e, rs[i]).Ok?
  }

  function FirstError(e: Env, rs: seq<Record>): Option<Error> {
    if rs == [] then None
    else match KeyOf(e, rs[0])
      case Err(x) => Some(x)
      case Ok(_) => FirstError(e, rs[1..])
  }

  /** How many of the records have this key. */
  function Count(e: Env, rs: seq<Record>, id: string): nat {
    if rs == [] then 0 else (if Has(e, rs[0], id) then 1 else 0) + Count(e, rs[1..], id)
  }

  function First(e: Env, rs: seq<Record>, id: string): (r: Record)
    requires Count(e, rs, id) > 0
    ensures Has(e, r, id) && r in rs
  {
    if Has(e, rs[0], id) then rs[0] else First(e, rs[1..], id)
  }

  function KeyAt(e: Env, rs: seq<Record>, id: string): Key
    requires Count(e, rs, id) > 0
  {
    KeyOf(e, First(e, rs, id)).value
  }

  function Ids(e: Env, rs: seq<Record>): set<string> {
    if rs == [] then {}
    else (if KeyOf(e, rs[0]).Ok? then {KeyString(KeyOf(e, rs[0]).value)} else {}) + Ids(e, rs[1..])
  }

  lemma {:induction false} IdsCount(e: Env, rs: seq<Record>, id: string)
    ensures id in Ids(e, rs) <==> Count(e, rs, id) > 0
  {
    if rs != [] {
      IdsCount(e, rs[1..], id);
    }
  }

  lemma {:induction false} CountAppend(e: Env, a: seq<Record>, b: seq<Record>, id: string)
    ensures Count(e, a + b, id) == Count(e, a, id) + Count(e, b, id)
  {
    if a == [] {
      assert a + b == b;
    } else {
      AppendTail(a, b);
      CountAppend(e, a[1..], b, id);
    }
  }

  lemma CountOne(e: Env, r: Record, id: string)
    ensures Count(e, [r], id) == if Has(e, r, id) then 1 else 0
  {
    assert [r][1..] == [];
  }

  lemma {:induction false} FirstSnoc(e: Env, rs: seq<Record>, r: Record, id: string)
    requires Count(e, rs + [r], id) > 0
    ensures First(e, rs + [r], id) == if Count(e, rs, id) > 0 then First(e, rs, id) else r
  {
    if rs == [] {
      assert rs + [r] == [r];
      CountOne(e, r, id);
    } else {
      AppendTail(rs, [r]);
      if !Has(e, rs[0], id) {
        FirstSnoc(e, rs[1..], r, id);
      }
    }
  }

  lemma {:induction false} CountOfMember(e: Env, rs: seq<Record>, i: nat, id: string)
    requires i < |rs| && Has(e, rs[i], id)
    ensures Count(e, rs, id) > 0
  {
    if i > 0 {
      CountOfMember(e, rs[1..], i - 1, id);
    }
  }

  /** Two records with one key string have one key. */
  lemma OneKey(e: Env, r: Record, q: Record, id: string)
    requires EnvOk(e) && Has(e, r, id) && Has(e, q, id)
    ensures KeyOf(e, r) == KeyOf(e, q)
  {
    KeyStringInjective(e, r, q);
  }

  // ----- the classification -----

  predicate OnSide(e: Env, local: seq<Record>, incoming: seq<Record>, id: string) {
    Count(e, local, id) + Count(e, incoming, id) > 0
  }

  /** What one key comes to, by how often it occurs on either side. */
  function ItemFor(e: Env, local: seq<Record>, incoming: seq<Record>, id: string): Item
    requires OnSide(e, local, incoming, id)
  {
    var key := if Count(e, local, id) > 0 then KeyAt(e, local, id) else KeyAt(e, incoming, id);
    if Count(e, local, id) > 1 then Item(key, Ambiguous, None, None, [], RepeatsLocally)
    else if Count(e, incoming, id) > 1 then Item(key, Ambiguous, None, None, [], RepeatsInPackage)
    else Paired(e, key,
                if Count(e, local, id) > 0 then Some(First(e, local, id)) else None,
                if Count(e, incoming, id) > 0 then Some(First(e, incoming, id)) else None)
  }

  function Paired(e: Env, key: Key, mine: Option<Record>, theirs: Option<Record>): Item {
    if mine.None? then Item(key, MissingLocal, None, theirs, [], NoDetail)
    else if theirs.None? then Item(key, MissingIncoming, mine, None, [], NoDetail)
    else
      var ds := Compare.Differences(e, mine.value, theirs.value);
      Item(key, if ds == [] then Identical else Collision, mine, theirs, ds, NoDetail)
  }

  lemma ItemHasKey(e: Env, local: seq<Record>, incoming: seq<Record>, id: string)
    requires OnSide(e, local, incoming, id)
    ensures KeyString(ItemFor(e, local, incoming, id).key) == id
  {
  }

  function AllIds(e: Env, local: seq<Record>, incoming: seq<Record>): set<string> {
    Ids(e, local) + Ids(e, incoming)
  }

  lemma AllIdsOnSide(e: Env, local: seq<Record>, incoming: seq<Record>)
    ensures forall id :: id in AllIds(e, local, incoming) <==> OnSide(e, local, incoming, id)
  {
    forall id
      ensures id in AllIds(e, local, incoming) <==> OnSide(e, local, incoming, id)
    {
      IdsCount(e, local, id);
      IdsCount(e, incoming, id);
    }
  }

  function ItemsFor(e: Env, local: seq<Record>, incoming: seq<Record>, ids: seq<string>): (r: seq<Item>)
    requires forall i :: 0 <= i < |ids| ==> OnSide(e, local, incoming, ids[i])
    ensures |r| == |ids| && forall i :: 0 <= i < |ids| ==> r[i] == ItemFor(e, local, incoming, ids[i])
  {
    if ids == [] then [] else [ItemFor(e, local, incoming, ids[0])] + ItemsFor(e, local, incoming, ids[1..])
  }

  function SortedIds(e: Env, local: seq<Record>, incoming: seq<Record>): (ids: seq<string>)
    ensures forall i :: 0 <= i < |ids| ==> OnSide(e, local, incoming, ids[i])
    ensures forall id :: id in ids <==> OnSide(e, local, incoming, id)
  {
    RankingChars();
    SortedElements(CharRank, AllIds(e, local, incoming));
    AllIdsOnSide(e, local, incoming);
    var ids := Sorted(CharRank, AllIds(e, local, incoming));
    assert forall i :: 0 <= i < |ids| ==> ids[i] in ids;
    ids
  }

  /** The items of the result: one for every key of either side, in the order of the keys. */
  function DiffItems(e: Env, local: seq<Record>, incoming: seq<Record>): seq<Item> {
    ItemsFor(e, local, incoming, SortedIds(e, local, incoming))
  }

  function CountStatus(items: seq<Item>, s: Status): nat {
    if items == [] then 0 else (if items[0].status == s then 1 else 0) + CountStatus(items[1..], s)
  }

  // ----- the index of one side -----

  datatype Indexed = Indexed(key: Key, record: Record)

  function Lookup<T>(m: map<string, T>, id: string): Option<T> {
    if id in m then Some(m[id]) else None
  }

  function CountEntry(e: Env, rs: seq<Record>, id: string): Option<nat> {
    if Count(e, rs, id) > 0 then Some(Count(e, rs, id)) else None
  }

  function KeyEntry(e: Env, rs: seq<Record>, id: string): Option<Key> {
    if Count(e, rs, id) > 0 then Some(KeyAt(e, rs, id)) else None
  }

  function IndexEntry(e: Env, rs: seq<Record>, id: string): Option<Indexed> {
    if Count(e, rs, id) > 0 then Some(Indexed(KeyAt(e, rs, id), First(e, rs, id))) else None
  }

  /** The three maps of indexAllowingDuplicates after the records of a list. */
  ghost predicate Counting(e: Env, rs: seq<Record>, counts: map<string, nat>) {
    forall id :: Lookup(counts, id) == CountEntry(e, rs, id)
  }

  ghost predicate Naming(e: Env, rs: seq<Record>, keys: map<string, Key>) {
    forall id :: Lookup(keys, id) == KeyEntry(e, rs, id)
  }

  ghost predicate Indexing(e: Env, rs: seq<Record>, index: map<string, Indexed>) {
    forall id :: Lookup(index, id) == IndexEntry(e, rs, id)
  }

  lemma EntriesAfter(e: Env, rs: seq<Record>, r: Record, id: string)
    requires EnvOk(e) && KeyOf(e, r).Ok?
    ensures !Has(e, r, id) ==>
      && CountEntry(e, rs + [r], id) == CountEntry(e, rs, id)
      && KeyEntry(e, rs + [r], id) == KeyEntry(e, rs, id)
      && IndexEntry(e, rs + [r], id) == IndexEntry(e, rs, id)
    ensures Has(e, r, id) ==>
      && CountEntry(e, rs + [r], id) == Some(Count(e, rs, id) + 1)
      && KeyEntry(e, rs + [r], id) == Some(KeyOf(e, r).value)
      && IndexEntry(e, rs + [r], id) ==
           if IndexEntry(e, rs, id).None? then Some(Indexed(KeyOf(e, r).value, r)) else IndexEntry(e, rs, id)
  {
    CountAppend(e, rs, [r], id);
    CountOne(e, r, id);
    if Count(e, rs + [r], id) > 0 {
      FirstSnoc(e, rs, r, id);
      if Count(e, rs, id) > 0 && Has(e, r, id) {
        OneKey(e, r, First(e, rs, id), id);
      }
    }
  }

  lemma CountOneMore(e: Env, rs: seq<Record>, counts: map<string, nat>, r: Record)
    requires EnvOk(e) && Counting(e, rs, counts) && KeyOf(e, r).Ok?
    ensures var id := KeyString(KeyOf(e, r).value);
      Counting(e, rs + [r], counts[id := (if id in counts then counts[id] else 0) + 1])
  {
    forall i { EntriesAfter(e, rs, r, i); }
    var id := KeyString(KeyOf(e, r).value);
    assert Lookup(counts, id) == CountEntry(e, rs, id);
    forall i | i != id
      ensures Lookup(counts[id := (if id in counts then counts[id] else 0) + 1], i) == CountEntry(e, rs + [r], i)
    {
      assert Lookup(counts, i) == CountEntry(e, rs, i);
    }
  }

  lemma NameOneMore(e: Env, rs: seq<Record>, keys: map<string, Key>, r: Record)
    requires EnvOk(e) && Naming(e, rs, keys) && KeyOf(e, r).Ok?
    ensures Naming(e, rs + [r], keys[KeyString(KeyOf(e, r).value) := KeyOf(e, r).value])
  {
    var id := KeyString(KeyOf(e, r).value);
    forall i
      ensures Lookup(keys[id := KeyOf(e, r).value], i) == KeyEntry(e, rs + [r], i)
    {
      EntriesAfter(e, rs, r, i);
      assert Lookup(keys, i) == KeyEntry(e, rs, i);
    }
  }

  lemma IndexOneMore(e: Env, rs: seq<Record>, index: map<string, Indexed>, r: Record)
    requires EnvOk(e) && Indexing(e, rs, index) && KeyOf(e, r).Ok?
    ensures var id := KeyString(KeyOf(e, r).value);
      Indexing(e, rs + [r], if id in index then index else index[id := Indexed(KeyOf(e, r).value, r)])
  {
    var id := KeyString(KeyOf(e, r).value);
    forall i
      ensures Lookup(if id in index then index else index[id := Indexed(KeyOf(e, r).value, r)], i)
           == IndexEntry(e, rs + [r], i)
    {
      EntriesAfter(e, rs, r, i);
      assert Lookup(index, i) == IndexEntry(e, rs, i);
    }
  }

  /** The result for one side: the records whose key is theirs alone, and the keys that repeat, sorted. */
  datatype Side = Side(index: map<string, Indexed>, duplicates: seq<Key>)

  ghost predicate SideOf(e: Env, rs: seq<Record>, side: Side) {
    && Singles(e, rs, {}, side.index)
    && Repeats(e, rs, Ids(e, rs), side.duplicates)
    && InOrder(ByName(KeyString), side.duplicates)
  }

  /** The index without the repeated keys, but for those still to be visited. */
  ghost predicate Singles(e: Env, rs: seq<Record>, pending: set<string>, index: map<string, Indexed>) {
    forall id :: Lookup(index, id) == if Count(e, rs, id) <= 1 || id in pending then IndexEntry(e, rs, id) else None
  }

  /** Each repeated key among the ids visited, once. */
  ghost predicate Repeats(e: Env, rs: seq<Record>, done: set<string>, ks: seq<Key>) {
    && (forall k :: k in ks ==> IsRepeat(e, rs, KeyString(k), k) && KeyString(k) in done)
    && (forall id, k :: id in done && IsRepeat(e, rs, id, k) ==> multiset(ks)[k] == 1)
  }

  ghost predicate IsRepeat(e: Env, rs: seq<Record>, id: string, k: Key) {
    Count(e, rs, id) > 1 && KeyAt(e, rs, id) == k
  }

  lemma RepeatHasId(e: Env, rs: seq<Record>, id: string, k: Key)
    requires IsRepeat(e, rs, id, k)
    ensures KeyString(k) == id
  {
  }

  lemma RepeatsAdd(e: Env, rs: seq<Record>, done: set<string>, ks: seq<Key>, id: string)
    requires Repeats(e, rs, done, ks) && id !in done && Count(e, rs, id) > 1
    ensures Repeats(e, rs, done + {id}, ks + [KeyAt(e, rs, id)])
  {
    var key := KeyAt(e, rs, id);
    assert IsRepeat(e, rs, id, key);
    forall i, k | i in done + {id} && IsRepeat(e, rs, i, k)
      ensures multiset(ks + [key])[k] == 1
    {
      RepeatHasId(e, rs, i, k);
      RepeatHasId(e, rs, id, key);
      assert multiset(ks + [key]) == multiset(ks) + multiset{key};
      if i == id {
        assert k !in ks;
      }
    }
  }

  lemma RepeatsSkip(e: Env, rs: seq<Record>, done: set<string>, ks: seq<Key>, id: string)
    requires Repeats(e, rs, done, ks) && Count(e, rs, id) <= 1
    ensures Repeats(e, rs, done + {id}, ks)
  {
  }

  lemma RepeatsPermuted(e: Env, rs: seq<Record>, done: set<string>, ks: seq<Key>, sorted: seq<Key>)
    requires Repeats(e, rs, done, ks) && multiset(sorted) == multiset(ks)
    ensures Repeats(e, rs, done, sorted)
  {
    forall k | k in sorted
      ensures k in ks
    {
      assert k in multiset(sorted);
    }
  }

  lemma SinglesDrop(e: Env, rs: seq<Record>, pending: set<string>, index: map<string, Indexed>, id: string)
    requires Singles(e, rs, pending, index)
    ensures Singles(e, rs, pending - {id}, if Count(e, rs, id) > 1 then index - {id} else index)
  {
    var dropped := if Count(e, rs, id) > 1 then index - {id} else index;
    forall i
      ensures Lookup(dropped, i) == if Count(e, rs, i) <= 1 || i in pending - {id} then IndexEntry(e, rs, i) else None
    {
      assert Lookup(index, i) == if Count(e, rs, i) <= 1 || i in pending then IndexEntry(e, rs, i) else None;
    }
  }

  ghost predicate Tables(
    e: Env, rs: seq<Record>, index: map<string, Indexed>, counts: map<string, nat>, keys: map<string, Key>)
  {
    Indexing(e, rs, index) && Counting(e, rs, counts) && Naming(e, rs, keys)
  }

  lemma TablesOneMore(
    e: Env, rs: seq<Record>, k: nat, index: map<string, Indexed>, counts: map<string, nat>, keys: map<string, Key>, key: Key)
    requires EnvOk(e) && k < |rs| && Tables(e, rs[..k], index, counts, keys) && KeyOf(e, rs[k]) == Ok(key)
    ensures var id := KeyString(key);
      Tables(e, rs[..k + 1], if id in index then index else index[id := Indexed(key, rs[k])],
             counts[id := (if id in counts then counts[id] else 0) + 1], keys[id := key])
  {
    assert rs[..k + 1] == rs[..k] + [rs[k]];
    CountOneMore(e, rs[..k], counts, rs[k]);
    NameOneMore(e, rs[..k], keys, rs[k]);
    IndexOneMore(e, rs[..k], index, rs[k]);
  }

  lemma ErrorAt(e: Env, rs: seq<Record>, k: nat)
    requires k < |rs|
    ensures FirstError(e, rs[k..]) == match KeyOf(e, rs[k]) case Err(x) => Some(x) case Ok(_) => FirstError(e, rs[k + 1..])
  {
    assert rs[k..][1..] == rs[k + 1..];
  }

  /** The first loop: count every record under its key, and keep the first of each. */
  method CountRecords(e: Env, records: seq<Record>)
    returns (r: Option<Error>, index: map<string, Indexed>, counts: map<string, nat>, keys: map<string, Key>)
    requires EnvOk(e)
    ensures r == FirstError(e, records)
    ensures r.None? ==> Tables(e, records, index, counts, keys)
  {
    index, counts, keys := map[], map[], map[];
    var k := 0;
    while k < |records|
      invariant k <= |records| && FirstError(e, records) == FirstError(e, records[k..])
      invariant Tables(e, records[..k], index, counts, keys)
    {
      var record := records[k];
      var key := KeyOf(e, record);
      ErrorAt(e, records, k);
      if key.Err? {
        return Some(key.error), map[], map[], map[];
      }
      TablesOneMore(e, records, k, index, counts, keys, key.value);
      var id := KeyString(key.value);
      counts := counts[id := (if id in counts then counts[id] else 0) + 1];
      keys := keys[id := key.value];
      if id !in index {
        index := index[id := Indexed(key.value, record)];
      }
      k := k + 1;
    }
    assert records[..k] == records;
    r := None;
  }

  /** The state of the loop over the counts, with some ids visited and some still to come. */
  ghost predicate Splitting(
    e: Env, rs: seq<Record>, done: set<string>, pending: set<string>, index: map<string, Indexed>, ks: seq<Key>)
  {
    done + pending == Ids(e, rs) && done !! pending && Repeats(e, rs, done, ks) && Singles(e, rs, pending, index)
  }

  lemma SplitOneMore(
    e: Env, rs: seq<Record>, done: set<string>, pending: set<string>, index: map<string, Indexed>, ks: seq<Key>, id: string)
    requires Splitting(e, rs, done, pending, index, ks) && id in pending
    ensures Splitting(e, rs, done + {id}, pending - {id},
                      if Count(e, rs, id) > 1 then index - {id} else index,
                      if Count(e, rs, id) > 1 then ks + [KeyAt(e, rs, id)] else ks)
  {
    SinglesDrop(e, rs, pending, index, id);
    if Count(e, rs, id) > 1 {
      RepeatsAdd(e, rs, done, ks, id);
    } else {
      RepeatsSkip(e, rs, done, ks, id);
    }
  }

  lemma SplitStart(e: Env, rs: seq<Record>, all: map<string, Indexed>)
    requires Indexing(e, rs, all)
    ensures Splitting(e, rs, {}, Ids(e, rs), all, [])
  {
    forall id
      ensures Lookup(all, id) == if Count(e, rs, id) <= 1 || id in Ids(e, rs) then IndexEntry(e, rs, id) else None
    {
      IdsCount(e, rs, id);
      assert Lookup(all, id) == IndexEntry(e, rs, id);
    }
  }

  lemma SplitEnd(e: Env, rs: seq<Record>, done: set<string>, index: map<string, Indexed>, ks: seq<Key>, sorted: seq<Key>)
    requires Splitting(e, rs, done, {}, index, ks)
    requires multiset(sorted) == multiset(ks) && InOrder(ByName(KeyString), sorted)
    ensures SideOf(e, rs, Side(index, sorted))
  {
    assert done == Ids(e, rs);
    RepeatsPermuted(e, rs, done, ks, sorted);
  }

  /** The loop over the counts, in whatever order the map gives them, and the sort after it. */
  method SplitDuplicates(
    e: Env, ghost records: seq<Record>, all: map<string, Indexed>, counts: map<string, nat>, keys: map<string, Key>)
    returns (side: Side)
    requires Tables(e, records, all, counts, keys)
    ensures SideOf(e, records, side)
  {
    var index, duplicates, pending := all, [], counts.Keys;
    ghost var done := {};
    CountedIds(e, records, counts);
    SplitStart(e, records, all);
    while pending != {}
      invariant pending <= counts.Keys && Splitting(e, records, done, pending, index, duplicates)
      decreases |pending|
    {
      var id :| id in pending;
      assert Lookup(counts, id) == CountEntry(e, records, id) && Lookup(keys, id) == KeyEntry(e, records, id);
      SplitOneMore(e, records, done, pending, index, duplicates, id);
      if counts[id] > 1 {
        duplicates := duplicates + [keys[id]];
        index := index - {id};
      }
      done, pending := done + {id}, pending - {id};
    }
    var sorted := SortSlice(ByName(KeyString), duplicates);
    SplitEnd(e, records, done, index, duplicates, sorted);
    side := Side(index, sorted);
  }

  lemma CountedIds(e: Env, rs: seq<Record>, counts: map<string, nat>)
    requires Counting(e, rs, counts)
    ensures counts.Keys == Ids(e, rs)
  {
    forall id
      ensures id in counts <==> id in Ids(e, rs)
    {
      assert Lookup(counts, id) == CountEntry(e, rs, id);
      IdsCount(e, rs, id);
    }
  }

  method IndexAllowingDuplicates(e: Env, records: seq<Record>) returns (r: Result<Side, Error>)
    requires EnvOk(e)
    ensures match FirstError(e, records)
      case Some(x) => r == Err(x)
      case None => r.Ok? && SideOf(e, records, r.value)
  {
    var error, index, counts, keys := CountRecords(e, records);
    if error.Some? {
      return Err(error.value);
    }
    var side := SplitDuplicates(e, records, index, counts, keys);
    r := Ok(side);
  }
}
