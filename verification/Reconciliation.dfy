/** Diff itself: the loops that fill maps and lists in any order, the sort, and the counters. */
module Reconciliation {
  import opened Wrappers
  import opened Ordering
  import opened Json
  import opened MatchKey
  import opened Sorting
  import opened Classification
  import Compare

  datatype Outcome = Outcome(items: seq<Item>, counts: map<Status, nat>)

  function Counted(counts: map<Status, nat>, s: Status): nat {
    if s in counts then counts[s] else 0
  }

  // ----- the order of the items -----

  function StatusText(s: Status): string {
    match s
    case Identical => "identical"
    case Collision => "collision"
    case MissingLocal => "missing_local"
    case MissingIncoming => "missing_incoming"
    case Ambiguous => "ambiguous"
  }

  function ItemName(it: Item): string {
    KeyString(it.key)
  }

  predicate ItemBefore(a: Item, b: Item) {
    if ItemName(a) != ItemName(b) then Less(CharRank, ItemName(a), ItemName(b))
    else Less(CharRank, StatusText(a.status), StatusText(b.status))
  }

  lemma NotBefore(a: Item, b: Item)
    ensures !ItemBefore(b, a) <==>
      if ItemName(a) != ItemName(b) then Leq(CharRank, ItemName(a), ItemName(b))
      else Leq(CharRank, StatusText(a.status), StatusText(b.status))
  {
    NotLess(ItemName(b), ItemName(a));
    NotLess(StatusText(b.status), StatusText(a.status));
  }

  lemma NotBeforeTransitive(a: Item, b: Item, c: Item)
    requires !ItemBefore(b, a) && !ItemBefore(c, b)
    ensures !ItemBefore(c, a)
  {
    RankingChars();
    NotBefore(a, b);
    NotBefore(b, c);
    NotBefore(a, c);
    if ItemName(a) == ItemName(b) == ItemName(c) {
      LeqTransitive(CharRank, StatusText(a.status), StatusText(b.status), StatusText(c.status));
    } else if ItemName(a) != ItemName(b) && ItemName(b) != ItemName(c) {
      LeqTransitive(CharRank, ItemName(a), ItemName(b), ItemName(c));
      if ItemName(a) == ItemName(c) {
        LeqAntisymmetric(CharRank, ItemName(a), ItemName(b));
      }
    }
  }

  function ItemOrder(): (before: (Item, Item) -> bool)
    ensures Comparison(before)
    ensures forall a, b :: before(a, b) <==> ItemBefore(a, b)
  {
    RankingChars();
    var before := (a: Item, b: Item) => ItemBefore(a, b);
    forall a, b | before(a, b)
      ensures !before(b, a)
    {
      NotBefore(a, b);
      LeqTotal(CharRank, ItemName(a), ItemName(b));
    }
    forall a, b, c | !before(b, a) && !before(c, b)
      ensures !before(c, a)
    {
      NotBeforeTransitive(a, b, c);
    }
    before
  }

  // ----- which keys already have their item -----

  ghost predicate IsItem(e: Env, local: seq<Record>, incoming: seq<Record>, id: string, it: Item) {
    OnSide(e, local, incoming, id) && ItemFor(e, local, incoming, id) == it
  }

  /** The items of exactly these ids, each once, in some order. */
  ghost predicate Covers(e: Env, local: seq<Record>, incoming: seq<Record>, items: seq<Item>, done: set<string>) {
    && (forall it :: it in items ==> IsItem(e, local, incoming, ItemName(it), it) && ItemName(it) in done)
    && (forall id, it :: id in done && IsItem(e, local, incoming, id, it) ==> multiset(items)[it] == 1)
  }

  lemma CoversAdd(e: Env, local: seq<Record>, incoming: seq<Record>, items: seq<Item>, done: set<string>, id: string)
    requires Covers(e, local, incoming, items, done) && OnSide(e, local, incoming, id) && id !in done
    ensures Covers(e, local, incoming, items + [ItemFor(e, local, incoming, id)], done + {id})
  {
    var added := ItemFor(e, local, incoming, id);
    ItemHasKey(e, local, incoming, id);
    forall i, it | i in done + {id} && IsItem(e, local, incoming, i, it)
      ensures multiset(items + [added])[it] == 1
    {
      ItemHasKey(e, local, incoming, i);
      assert multiset(items + [added]) == multiset(items) + multiset{added};
      if i == id {
        assert it !in items;
      }
    }
  }

  lemma CoversDistinct(e: Env, local: seq<Record>, incoming: seq<Record>, items: seq<Item>, done: set<string>)
    requires Covers(e, local, incoming, items, done)
    ensures DistinctNames(ItemName, items)
  {
    forall i, j | 0 <= i < j < |items|
      ensures ItemName(items[i]) != ItemName(items[j])
    {
      assert items[i] in items && items[j] in items;
      assert IsItem(e, local, incoming, ItemName(items[i]), items[i]);
      assert IsItem(e, local, incoming, ItemName(items[j]), items[j]);
      if ItemName(items[i]) == ItemName(items[j]) {
        Twice(items, i, j);
      }
    }
  }

  lemma Twice<T>(s: seq<T>, i: nat, j: nat)
    requires i < j < |s| && s[i] == s[j]
    ensures multiset(s)[s[i]] >= 2
  {
    var a, b := s[..i + 1], s[i + 1..];
    assert s == a + b;
    assert s[i] in a;
    assert s[j] in b by {
      assert b[j - i - 1] == s[j];
    }
    assert multiset(s) == multiset(a) + multiset(b);
  }

  lemma CoversPermuted(
    e: Env, local: seq<Record>, incoming: seq<Record>, items: seq<Item>, done: set<string>, sorted: seq<Item>)
    requires Covers(e, local, incoming, items, done) && multiset(sorted) == multiset(items)
    ensures Covers(e, local, incoming, sorted, done)
  {
    forall it | it in sorted
      ensures it in items
    {
      assert it in multiset(sorted);
    }
  }

  lemma NamesCovered(e: Env, local: seq<Record>, incoming: seq<Record>, items: seq<Item>, done: set<string>, n: string)
    requires Covers(e, local, incoming, items, done) && (n in done ==> OnSide(e, local, incoming, n))
    ensures n in Names(ItemName, items) <==> n in done
  {
    var names := Names(ItemName, items);
    if n in done {
      var it := ItemFor(e, local, incoming, n);
      ItemHasKey(e, local, incoming, n);
      assert IsItem(e, local, incoming, n, it);
      assert it in items;
      var k :| 0 <= k < |items| && items[k] == it;
      assert names[k] == n;
    }
    if n in names {
      var k :| 0 <= k < |names| && names[k] == n;
      assert items[k] in items;
    }
  }

  /** In order and covering everything, the items are those of the specification, one by one. */
  lemma CoveredInOrder(e: Env, local: seq<Record>, incoming: seq<Record>, items: seq<Item>)
    requires Covers(e, local, incoming, items, AllIds(e, local, incoming)) && InOrder(ItemOrder(), items)
    ensures items == DiffItems(e, local, incoming)
  {
    RankingChars();
    var all := AllIds(e, local, incoming);
    AllIdsOnSide(e, local, incoming);
    CoversDistinct(e, local, incoming, items, all);
    forall n
      ensures n in Names(ItemName, items) <==> n in all
    {
      NamesCovered(e, local, incoming, items, all, n);
    }
    OrderedNames(ItemName, ItemOrder(), items, all);
    ItemsByName(e, local, incoming, items, SortedIds(e, local, incoming));
  }

  lemma ItemsByName(e: Env, local: seq<Record>, incoming: seq<Record>, items: seq<Item>, ids: seq<string>)
    requires Names(ItemName, items) == ids
    requires forall it :: it in items ==> IsItem(e, local, incoming, ItemName(it), it)
    requires forall i :: 0 <= i < |ids| ==> OnSide(e, local, incoming, ids[i])
    ensures items == ItemsFor(e, local, incoming, ids)
  {
    forall k | 0 <= k < |items|
      ensures items[k] == ItemFor(e, local, incoming, ids[k])
    {
      assert items[k] in items && ids[k] == ItemName(items[k]);
    }
  }

  // ----- the steps -----

  function KeyNames(ks: seq<Key>): set<string> {
    set k | k in ks :: KeyString(k)
  }

  lemma KeyNamesSnoc(ks: seq<Key>, k: nat)
    requires k < |ks|
    ensures KeyNames(ks[..k + 1]) == KeyNames(ks[..k]) + {KeyString(ks[k])}
  {
    assert ks[..k + 1] == ks[..k] + [ks[k]];
  }

  /** The duplicates of a side: their names are the repeated ids, and no two are the same. */
  lemma SideDuplicates(e: Env, rs: seq<Record>, side: Side)
    requires SideOf(e, rs, side)
    ensures forall id :: id in KeyNames(side.duplicates) <==> Count(e, rs, id) > 1
    ensures DistinctNames(KeyString, side.duplicates)
    ensures forall i :: 0 <= i < |side.duplicates| ==>
      IsRepeat(e, rs, KeyString(side.duplicates[i]), side.duplicates[i])
  {
    var ks := side.duplicates;
    forall id | Count(e, rs, id) > 1
      ensures id in KeyNames(ks)
    {
      IdsCount(e, rs, id);
      assert IsRepeat(e, rs, id, KeyAt(e, rs, id));
      assert KeyAt(e, rs, id) in ks;
    }
    forall i | 0 <= i < |ks|
      ensures IsRepeat(e, rs, KeyString(ks[i]), ks[i]) && KeyString(ks[i]) in Ids(e, rs)
    {
      assert ks[i] in ks;
    }
    forall i, j | 0 <= i < j < |ks|
      ensures KeyString(ks[i]) != KeyString(ks[j])
    {
      if KeyString(ks[i]) == KeyString(ks[j]) {
        Twice(ks, i, j);
      }
    }
  }

  method LocalDuplicates(e: Env, ghost local: seq<Record>, ghost incoming: seq<Record>, side: Side)
    returns (items: seq<Item>, ambiguous: set<string>)
    requires SideOf(e, local, side)
    ensures Covers(e, local, incoming, items, ambiguous)
    ensures ambiguous == KeyNames(side.duplicates)
  {
    SideDuplicates(e, local, side);
    items, ambiguous := [], {};
    var ks, k := side.duplicates, 0;
    while k < |ks|
      invariant k <= |ks| && ambiguous == KeyNames(ks[..k])
      invariant Covers(e, local, incoming, items, ambiguous)
    {
      var key := ks[k];
      KeyNamesSnoc(ks, k);
      assert IsRepeat(e, local, KeyString(key), key);
      CoversAdd(e, local, incoming, items, ambiguous, KeyString(key));
      ambiguous := ambiguous + {KeyString(key)};
      items := items + [Item(key, Ambiguous, None, None, [], RepeatsLocally)];
      k := k + 1;
    }
    assert ks[..k] == ks;
  }

  /** The key of an item may be read on either side. */
  lemma SameKeyOnBothSides(e: Env, local: seq<Record>, incoming: seq<Record>, id: string)
    requires EnvOk(e) && Count(e, incoming, id) > 0
    ensures ItemFor(e, local, incoming, id).key == KeyAt(e, incoming, id)
  {
    if Count(e, local, id) > 0 {
      OneKey(e, First(e, local, id), First(e, incoming, id), id);
    }
  }

  /** What is covered once the first duplicates of the package are seen. */
  ghost predicate CoversKeys(
    e: Env, local: seq<Record>, incoming: seq<Record>, items: seq<Item>, known: set<string>, ks: seq<Key>, ambiguous: set<string>)
  {
    ambiguous == known + KeyNames(ks) && Covers(e, local, incoming, items, ambiguous)
  }

  lemma CoversNextKey(
    e: Env, local: seq<Record>, incoming: seq<Record>, items: seq<Item>, known: set<string>, ks: seq<Key>, k: nat,
    ambiguous: set<string>)
    requires k < |ks| && CoversKeys(e, local, incoming, items, known, ks[..k], ambiguous)
    requires KeyString(ks[k]) !in ambiguous ==> OnSide(e, local, incoming, KeyString(ks[k]))
    ensures var id := KeyString(ks[k]);
      CoversKeys(e, local, incoming, if id in ambiguous then items else items + [ItemFor(e, local, incoming, id)],
                 known, ks[..k + 1], ambiguous + {id})
  {
    KeyNamesSnoc(ks, k);
    var id := KeyString(ks[k]);
    if id in ambiguous {
      assert ambiguous + {id} == ambiguous;
    } else {
      CoversAdd(e, local, incoming, items, ambiguous, id);
    }
  }

  lemma PackageRepeat(e: Env, local: seq<Record>, incoming: seq<Record>, key: Key)
    requires EnvOk(e) && IsRepeat(e, incoming, KeyString(key), key) && Count(e, local, KeyString(key)) <= 1
    ensures ItemFor(e, local, incoming, KeyString(key)) == Item(key, Ambiguous, None, None, [], RepeatsInPackage)
  {
    SameKeyOnBothSides(e, local, incoming, KeyString(key));
  }

  method PackageDuplicates(
    e: Env, ghost local: seq<Record>, ghost incoming: seq<Record>, side: Side, before: seq<Item>, known: set<string>)
    returns (items: seq<Item>, ambiguous: set<string>)
    requires EnvOk(e) && SideOf(e, incoming, side)
    requires Covers(e, local, incoming, before, known)
    requires forall id :: id in known <==> Count(e, local, id) > 1
    ensures Covers(e, local, incoming, items, ambiguous)
    ensures ambiguous == known + KeyNames(side.duplicates)
  {
    SideDuplicates(e, incoming, side);
    items, ambiguous := before, known;
    var ks, k := side.duplicates, 0;
    while k < |ks|
      invariant k <= |ks| && known <= ambiguous
      invariant CoversKeys(e, local, incoming, items, known, ks[..k], ambiguous)
    {
      var key := ks[k];
      assert IsRepeat(e, incoming, KeyString(key), key);
      CoversNextKey(e, local, incoming, items, known, ks, k, ambiguous);
      if KeyString(key) !in ambiguous {
        PackageRepeat(e, local, incoming, key);
        items := items + [Item(key, Ambiguous, None, None, [], RepeatsInPackage)];
        ambiguous := ambiguous + {KeyString(key)};
      } else {
        assert ambiguous + {KeyString(key)} == ambiguous;
      }
      k := k + 1;
    }
    assert ks[..k] == ks;
  }

  function PairedIndexed(e: Env, key: Key, mine: Option<Indexed>, theirs: Option<Indexed>): Item {
    Paired(e, key, if mine.Some? then Some(mine.value.record) else None,
           if theirs.Some? then Some(theirs.value.record) else None)
  }

  /** One key that is on no side twice: who has it, and what the comparison says. */
  method Classify(e: Env, key: Key, mine: Option<Indexed>, theirs: Option<Indexed>) returns (it: Item)
    requires mine.Some? || theirs.Some?
    ensures it == PairedIndexed(e, key, mine, theirs)
  {
    if mine.Some? && theirs.None? {
      it := Item(key, MissingIncoming, Some(mine.value.record), None, [], NoDetail);
    } else if mine.None? && theirs.Some? {
      it := Item(key, MissingLocal, None, Some(theirs.value.record), [], NoDetail);
    } else {
      var differences := Compare.CompareRecords(e, mine.value.record, theirs.value.record);
      var status := Identical;
      if |differences| > 0 {
        status := Collision;
      }
      it := Item(key, status, Some(mine.value.record), Some(theirs.value.record), differences, NoDetail);
    }
  }

  /** The keys of both indexes: a key of the package replaces the same key of the local side. */
  function MergedKeys(local: map<string, Indexed>, incoming: map<string, Indexed>): map<string, Key> {
    (map id | id in local :: local[id].key) + (map id | id in incoming :: incoming[id].key)
  }

  lemma SideEntry(e: Env, rs: seq<Record>, side: Side, id: string)
    requires SideOf(e, rs, side)
    ensures Lookup(side.index, id) ==
      if Count(e, rs, id) == 1 then Some(Indexed(KeyAt(e, rs, id), First(e, rs, id))) else None
  {
    assert Lookup(side.index, id) == if Count(e, rs, id) <= 1 || id in {} then IndexEntry(e, rs, id) else None;
  }

  lemma SinglesItem(e: Env, local: seq<Record>, incoming: seq<Record>, mine: Side, theirs: Side, id: string)
    requires EnvOk(e) && SideOf(e, local, mine) && SideOf(e, incoming, theirs)
    requires Count(e, local, id) <= 1 && Count(e, incoming, id) <= 1
    ensures id in MergedKeys(mine.index, theirs.index) <==> OnSide(e, local, incoming, id)
    ensures OnSide(e, local, incoming, id) ==>
      (Lookup(mine.index, id).Some? || Lookup(theirs.index, id).Some?) &&
      ItemFor(e, local, incoming, id)
        == PairedIndexed(e, MergedKeys(mine.index, theirs.index)[id], Lookup(mine.index, id), Lookup(theirs.index, id))
  {
    SideEntry(e, local, mine, id);
    SideEntry(e, incoming, theirs, id);
    if Count(e, incoming, id) > 0 {
      SameKeyOnBothSides(e, local, incoming, id);
    }
  }

  ghost predicate AmbiguousIds(e: Env, local: seq<Record>, incoming: seq<Record>, ids: set<string>) {
    forall id :: id in ids <==> Count(e, local, id) > 1 || Count(e, incoming, id) > 1
  }

  /** The state of the loop over the merged keys: all are covered but those still to come. */
  ghost predicate Resting(
    e: Env, local: seq<Record>, incoming: seq<Record>, items: seq<Item>, ambiguous: set<string>, keys: set<string>, pending: set<string>)
  {
    pending <= keys && Covers(e, local, incoming, items, ambiguous + (keys - pending))
  }

  lemma RestStart(
    e: Env, local: seq<Record>, incoming: seq<Record>, items: seq<Item>, ambiguous: set<string>, keys: set<string>)
    requires Covers(e, local, incoming, items, ambiguous)
    ensures Resting(e, local, incoming, items, ambiguous, keys, keys)
  {
    assert ambiguous + (keys - keys) == ambiguous;
  }

  lemma RestEnd(
    e: Env, local: seq<Record>, incoming: seq<Record>, items: seq<Item>, ambiguous: set<string>, keys: set<string>)
    requires Resting(e, local, incoming, items, ambiguous, keys, {})
    ensures Covers(e, local, incoming, items, ambiguous + keys)
  {
    assert keys - {} == keys;
  }

  lemma RestSkip(
    e: Env, local: seq<Record>, incoming: seq<Record>, items: seq<Item>,
    ambiguous: set<string>, keys: set<string>, pending: set<string>, id: string)
    requires Resting(e, local, incoming, items, ambiguous, keys, pending) && id in pending && id in ambiguous
    ensures Resting(e, local, incoming, items, ambiguous, keys, pending - {id})
  {
    assert ambiguous + (keys - (pending - {id})) == ambiguous + (keys - pending);
  }

  lemma RestAdd(
    e: Env, local: seq<Record>, incoming: seq<Record>, items: seq<Item>,
    ambiguous: set<string>, keys: set<string>, pending: set<string>, id: string)
    requires Resting(e, local, incoming, items, ambiguous, keys, pending) && id in pending && id !in ambiguous
    requires OnSide(e, local, incoming, id)
    ensures Resting(e, local, incoming, items + [ItemFor(e, local, incoming, id)], ambiguous, keys, pending - {id})
  {
    CoversAdd(e, local, incoming, items, ambiguous + (keys - pending), id);
    assert ambiguous + (keys - (pending - {id})) == ambiguous + (keys - pending) + {id};
  }

  method ClassifyKey(
    e: Env, ghost local: seq<Record>, ghost incoming: seq<Record>, mine: Side, theirs: Side,
    ids: map<string, Key>, id: string)
    returns (item: Item)
    requires EnvOk(e) && SideOf(e, local, mine) && SideOf(e, incoming, theirs)
    requires ids == MergedKeys(mine.index, theirs.index) && id in ids
    requires Count(e, local, id) <= 1 && Count(e, incoming, id) <= 1
    ensures IsItem(e, local, incoming, id, item)
  {
    SinglesItem(e, local, incoming, mine, theirs, id);
    item := Classify(e, ids[id], Lookup(mine.index, id), Lookup(theirs.index, id));
  }

  method ClassifyNext(
    e: Env, ghost local: seq<Record>, ghost incoming: seq<Record>, mine: Side, theirs: Side,
    before: seq<Item>, ambiguous: set<string>, ids: map<string, Key>, ghost pending: set<string>, id: string)
    returns (items: seq<Item>)
    requires EnvOk(e) && SideOf(e, local, mine) && SideOf(e, incoming, theirs)
    requires AmbiguousIds(e, local, incoming, ambiguous)
    requires ids == MergedKeys(mine.index, theirs.index) && id in ids && id in pending
    requires Resting(e, local, incoming, before, ambiguous, ids.Keys, pending)
    ensures Resting(e, local, incoming, items, ambiguous, ids.Keys, pending - {id})
  {
    items := before;
    if id in ambiguous {
      RestSkip(e, local, incoming, items, ambiguous, ids.Keys, pending, id);
    } else {
      var item := ClassifyKey(e, local, incoming, mine, theirs, ids, id);
      RestAdd(e, local, incoming, items, ambiguous, ids.Keys, pending, id);
      items := items + [item];
    }
  }

  /** The loop over the merged keys, in whatever order the map gives them. */
  method ClassifyRest(
    e: Env, ghost local: seq<Record>, ghost incoming: seq<Record>, mine: Side, theirs: Side,
    before: seq<Item>, ambiguous: set<string>)
    returns (items: seq<Item>)
    requires EnvOk(e) && SideOf(e, local, mine) && SideOf(e, incoming, theirs)
    requires Covers(e, local, incoming, before, ambiguous) && AmbiguousIds(e, local, incoming, ambiguous)
    ensures Covers(e, local, incoming, items, ambiguous + MergedKeys(mine.index, theirs.index).Keys)
  {
    items := before;
    var ids := MergedKeys(mine.index, theirs.index);
    var pending := ids.Keys;
    RestStart(e, local, incoming, items, ambiguous, ids.Keys);
    while pending != {}
      invariant Resting(e, local, incoming, items, ambiguous, ids.Keys, pending)
      decreases |pending|
    {
      var id :| id in pending;
      items := ClassifyNext(e, local, incoming, mine, theirs, items, ambiguous, ids, pending, id);
      pending := pending - {id};
    }
    RestEnd(e, local, incoming, items, ambiguous, ids.Keys);
  }

  lemma AllCovered(e: Env, local: seq<Record>, incoming: seq<Record>, mine: Side, theirs: Side, ambiguous: set<string>)
    requires EnvOk(e) && SideOf(e, local, mine) && SideOf(e, incoming, theirs)
    requires AmbiguousIds(e, local, incoming, ambiguous)
    ensures ambiguous + MergedKeys(mine.index, theirs.index).Keys == AllIds(e, local, incoming)
  {
    AllIdsOnSide(e, local, incoming);
    forall id
      ensures id in ambiguous + MergedKeys(mine.index, theirs.index).Keys <==> id in AllIds(e, local, incoming)
    {
      if id !in ambiguous {
        SinglesItem(e, local, incoming, mine, theirs, id);
      } else {
        IdsCount(e, local, id);
        IdsCount(e, incoming, id);
      }
    }
  }

  lemma CountStatusSnoc(items: seq<Item>, k: nat, s: Status)
    requires k < |items|
    ensures CountStatus(items[..k + 1], s) == CountStatus(items[..k], s) + if items[k].status == s then 1 else 0
  {
    if k > 0 {
      assert items[..k + 1][1..] == items[1..][..k] && items[..k][1..] == items[1..][..k - 1];
      CountStatusSnoc(items[1..], k - 1, s);
    }
  }

  method CountItems(items: seq<Item>) returns (counts: map<Status, nat>)
    ensures forall s :: Counted(counts, s) == CountStatus(items, s)
  {
    counts := map[];
    var k := 0;
    while k < |items|
      invariant k <= |items|
      invariant forall s :: Counted(counts, s) == CountStatus(items[..k], s)
    {
      var status := items[k].status;
      var next := counts[status := Counted(counts, status) + 1];
      forall s
        ensures Counted(next, s) == CountStatus(items[..k + 1], s)
      {
        CountStatusSnoc(items, k, s);
      }
      counts := next;
      k := k + 1;
    }
    assert items[..k] == items;
  }

  /**
   Compares two lists of records: the classification of every key, sorted by key, whatever
   order the maps are walked in and whatever permutation the sorts choose among equals.
   */
  method Diff(e: Env, local: seq<Record>, incoming: seq<Record>) returns (r: Result<Outcome, Error>)
    requires EnvOk(e)
    ensures match FirstError(e, local)
      case Some(x) => r == Err(x)
      case None =>
        match FirstError(e, incoming)
        case Some(x) => r == Err(x)
        case None => r.Ok? && r.value.items == DiffItems(e, local, incoming)
                     && forall s :: Counted(r.value.counts, s) == CountStatus(r.value.items, s)
  {
    var mine := IndexAllowingDuplicates(e, local);
    if mine.Err? {
      return Err(mine.error);
    }
    var theirs := IndexAllowingDuplicates(e, incoming);
    if theirs.Err? {
      return Err(theirs.error);
    }
    var items := Collect(e, local, incoming, mine.value, theirs.value);
    var sorted := SortSlice(ItemOrder(), items);
    CoversPermuted(e, local, incoming, items, AllIds(e, local, incoming), sorted);
    CoveredInOrder(e, local, incoming, sorted);
    var counts := CountItems(sorted);
    r := Ok(Outcome(sorted, counts));
  }

  method Collect(e: Env, ghost local: seq<Record>, ghost incoming: seq<Record>, mine: Side, theirs: Side)
    returns (items: seq<Item>)
    requires EnvOk(e) && SideOf(e, local, mine) && SideOf(e, incoming, theirs)
    ensures Covers(e, local, incoming, items, AllIds(e, local, incoming))
  {
    SideDuplicates(e, local, mine);
    SideDuplicates(e, incoming, theirs);
    var ambiguous;
    items, ambiguous := LocalDuplicates(e, local, incoming, mine);
    items, ambiguous := PackageDuplicates(e, local, incoming, theirs, items, ambiguous);
    items := ClassifyRest(e, local, incoming, mine, theirs, items, ambiguous);
    AllCovered(e, local, incoming, mine, theirs, ambiguous);
  }
}
