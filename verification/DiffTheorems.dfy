/** The laws of reconciliation: every key once, no record lost, no dependence on order, mirror symmetry. */
module DiffTheorems {
  import opened Wrappers
  import opened Ordering
  import opened Json
  import opened MatchKey
  import opened Classification
  import opened Reconciliation
  import Compare

  // ----- a total classification -----

  /** Every key of either side has one item and no other key has any. */
  lemma EachKeyOnce(e: Env, local: seq<Record>, incoming: seq<Record>, id: string)
    ensures var items := DiffItems(e, local, incoming);
      && (OnSide(e, local, incoming, id) <==> exists k :: 0 <= k < |items| && ItemName(items[k]) == id)
      && (forall j, k :: 0 <= j < k < |items| ==> Less(CharRank, ItemName(items[j]), ItemName(items[k])))
      && (forall k :: 0 <= k < |items| && ItemName(items[k]) == id ==> IsItem(e, local, incoming, id, items[k]))
  {
    RankingChars();
    var items, ids := DiffItems(e, local, incoming), SortedIds(e, local, incoming);
    SortedIncreases(CharRank, AllIds(e, local, incoming));
    forall k | 0 <= k < |items|
      ensures ItemName(items[k]) == ids[k]
    {
      ItemHasKey(e, local, incoming, ids[k]);
    }
    if OnSide(e, local, incoming, id) {
      var k :| 0 <= k < |ids| && ids[k] == id;
      assert ItemName(items[k]) == id;
    }
  }

  ghost predicate PayloadsOk(rs: seq<Record>) {
    forall i :: 0 <= i < |rs| ==> Compare.PayloadOk(rs[i].payload)
  }

  lemma FirstPayloadOk(e: Env, rs: seq<Record>, id: string)
    requires PayloadsOk(rs) && Count(e, rs, id) > 0
    ensures Compare.PayloadOk(First(e, rs, id).payload)
  {
  }

  /** The status says how often the key occurs on either side and whether the two records are identical. */
  lemma StatusMeans(e: Env, local: seq<Record>, incoming: seq<Record>, id: string)
    requires PayloadsOk(local) && PayloadsOk(incoming) && OnSide(e, local, incoming, id)
    ensures var status, mine, theirs := ItemFor(e, local, incoming, id).status, Count(e, local, id), Count(e, incoming, id);
      && (status == Ambiguous <==> mine > 1 || theirs > 1)
      && (status == MissingIncoming <==> mine == 1 && theirs == 0)
      && (status == MissingLocal <==> mine == 0 && theirs == 1)
      && (status == Identical || status == Collision <==> mine == theirs == 1)
      && (mine == theirs == 1 ==>
            (status == Identical <==> Compare.Identical(e, First(e, local, id), First(e, incoming, id))))
  {
    if Count(e, local, id) == Count(e, incoming, id) == 1 {
      FirstPayloadOk(e, local, id);
      FirstPayloadOk(e, incoming, id);
      Compare.NoDifferences(e, First(e, local, id), First(e, incoming, id));
    }
  }

  lemma CountedTwice(e: Env, rs: seq<Record>, i: nat, j: nat, id: string)
    requires i < j < |rs| && Has(e, rs[i], id) && Has(e, rs[j], id)
    ensures Count(e, rs, id) > 1
  {
    CountOfMember(e, rs[..j], i, id);
    CountOfMember(e, rs[j..], 0, id);
    CountAppend(e, rs[..j], rs[j..], id);
    assert rs == rs[..j] + rs[j..];
  }

  lemma OnlyOne(e: Env, rs: seq<Record>, i: nat, id: string)
    requires i < |rs| && Has(e, rs[i], id) && Count(e, rs, id) == 1
    ensures First(e, rs, id) == rs[i]
  {
    var first := First(e, rs, id);
    assert Has(e, first, id) && first in rs;
    var j :| 0 <= j < |rs| && rs[j] == first;
    if i < j {
      CountedTwice(e, rs, i, j, id);
    } else if j < i {
      CountedTwice(e, rs, j, i, id);
    }
  }

  /** Every record of either side stands on its side of the item of its key, unless the key is ambiguous. */
  lemma NoRecordLost(e: Env, local: seq<Record>, incoming: seq<Record>, id: string, i: nat)
    ensures i < |local| && Has(e, local[i], id) ==>
      && OnSide(e, local, incoming, id)
      && var it := ItemFor(e, local, incoming, id);
         Holds(it, it.local, local[i])
    ensures i < |incoming| && Has(e, incoming[i], id) ==>
      && OnSide(e, local, incoming, id)
      && var it := ItemFor(e, local, incoming, id);
         Holds(it, it.incoming, incoming[i])
  {
    if i < |local| && Has(e, local[i], id) {
      Counted(e, local, i, id);
    }
    if i < |incoming| && Has(e, incoming[i], id) {
      Counted(e, incoming, i, id);
    }
  }

  /** What an item says of a repeated key: repeats among the local records come first. */
  lemma DetailMeans(e: Env, local: seq<Record>, incoming: seq<Record>, id: string)
    requires OnSide(e, local, incoming, id)
    ensures var it := ItemFor(e, local, incoming, id);
      && KeyString(it.key) == id
      && (it.detail == RepeatsLocally <==> Count(e, local, id) > 1)
      && (it.detail == RepeatsInPackage <==> Count(e, local, id) <= 1 && Count(e, incoming, id) > 1)
      && (it.detail != NoDetail ==> it.local == None && it.incoming == None && it.differences == [])
  {
    ItemHasKey(e, local, incoming, id);
  }

  predicate Holds(it: Item, side: Option<Record>, r: Record) {
    side == Some(r) || it.status == Ambiguous
  }

  lemma Counted(e: Env, rs: seq<Record>, i: nat, id: string)
    requires i < |rs| && Has(e, rs[i], id)
    ensures Count(e, rs, id) > 1 || (Count(e, rs, id) == 1 && First(e, rs, id) == rs[i])
  {
    CountOfMember(e, rs, i, id);
    if Count(e, rs, id) == 1 {
      OnlyOne(e, rs, i, id);
    }
  }

  lemma {:induction false} CountersSum(items: seq<Item>)
    ensures CountStatus(items, Identical) + CountStatus(items, Collision) + CountStatus(items, MissingLocal)
            + CountStatus(items, MissingIncoming) + CountStatus(items, Ambiguous) == |items|
  {
    if items != [] {
      CountersSum(items[1..]);
    }
  }

  // ----- order does not matter -----

  ghost predicate SameRecords(rs: seq<Record>, qs: seq<Record>) {
    multiset(rs) == multiset(qs)
  }

  lemma CutOut<T>(qs: seq<T>, k: nat)
    requires k < |qs|
    ensures qs == qs[..k] + [qs[k]] + qs[k + 1..]
    ensures multiset(qs) == multiset(qs[..k] + qs[k + 1..]) + multiset{qs[k]}
  {
    var front, back := qs[..k], qs[k + 1..];
    assert qs == front + [qs[k]] + back;
  }

  lemma TakeOut<T>(rs: seq<T>, qs: seq<T>, k: nat)
    requires multiset(rs) == multiset(qs) && rs != [] && k < |qs| && qs[k] == rs[0]
    ensures qs == qs[..k] + [qs[k]] + qs[k + 1..]
    ensures multiset(rs[1..]) == multiset(qs[..k] + qs[k + 1..])
  {
    CutOut(qs, k);
    CutOut(rs, 0);
    assert rs[..0] + rs[1..] == rs[1..];
    SameRest(multiset(rs[1..]), multiset(qs[..k] + qs[k + 1..]), rs[0]);
  }

  lemma SameRest<T>(a: multiset<T>, b: multiset<T>, x: T)
    requires a + multiset{x} == b + multiset{x}
    ensures a == b
  {
    assert a == (a + multiset{x}) - multiset{x} && b == (b + multiset{x}) - multiset{x};
  }

  lemma {:induction false} CountPermuted(e: Env, rs: seq<Record>, qs: seq<Record>, id: string)
    requires SameRecords(rs, qs)
    ensures Count(e, rs, id) == Count(e, qs, id)
  {
    if rs == [] {
      assert |multiset(rs)| == |qs|;
    } else {
      assert rs[0] in multiset(qs);
      var k :| 0 <= k < |qs| && qs[k] == rs[0];
      var front, back := qs[..k], qs[k + 1..];
      TakeOut(rs, qs, k);
      CountPermuted(e, rs[1..], front + back, id);
      CountAppend(e, front, back, id);
      CountAppend(e, front + [qs[k]], back, id);
      CountAppend(e, front, [qs[k]], id);
      CountOne(e, qs[k], id);
    }
  }

  /** A key that occurs once names one record; a key that repeats is the same key whichever record is asked. */
  lemma FirstPermuted(e: Env, rs: seq<Record>, qs: seq<Record>, id: string)
    requires EnvOk(e) && SameRecords(rs, qs) && Count(e, rs, id) > 0
    ensures Count(e, qs, id) == Count(e, rs, id) && KeyAt(e, qs, id) == KeyAt(e, rs, id)
    ensures Count(e, rs, id) == 1 ==> First(e, qs, id) == First(e, rs, id)
  {
    CountPermuted(e, rs, qs, id);
    OneKey(e, First(e, rs, id), First(e, qs, id), id);
    if Count(e, rs, id) == 1 {
      assert First(e, qs, id) in multiset(rs);
      var i :| 0 <= i < |rs| && rs[i] == First(e, qs, id);
      OnlyOne(e, rs, i, id);
    }
  }

  lemma ItemPermuted(
    e: Env, local: seq<Record>, incoming: seq<Record>, local2: seq<Record>, incoming2: seq<Record>, id: string)
    requires EnvOk(e) && SameRecords(local, local2) && SameRecords(incoming, incoming2)
    ensures OnSide(e, local, incoming, id) <==> OnSide(e, local2, incoming2, id)
    ensures OnSide(e, local, incoming, id) ==> ItemFor(e, local2, incoming2, id) == ItemFor(e, local, incoming, id)
  {
    CountPermuted(e, local, local2, id);
    CountPermuted(e, incoming, incoming2, id);
    if Count(e, local, id) > 0 {
      FirstPermuted(e, local, local2, id);
    }
    if Count(e, incoming, id) > 0 {
      FirstPermuted(e, incoming, incoming2, id);
    }
  }

  lemma {:induction false} ItemsAgree(
    e: Env, local: seq<Record>, incoming: seq<Record>, local2: seq<Record>, incoming2: seq<Record>, ids: seq<string>)
    requires forall i :: 0 <= i < |ids| ==>
      && OnSide(e, local, incoming, ids[i]) && OnSide(e, local2, incoming2, ids[i])
      && ItemFor(e, local2, incoming2, ids[i]) == ItemFor(e, local, incoming, ids[i])
    ensures ItemsFor(e, local2, incoming2, ids) == ItemsFor(e, local, incoming, ids)
  {
  }

  lemma SameIds(e: Env, local: seq<Record>, incoming: seq<Record>, local2: seq<Record>, incoming2: seq<Record>)
    requires forall id :: OnSide(e, local, incoming, id) <==> OnSide(e, local2, incoming2, id)
    ensures SortedIds(e, local, incoming) == SortedIds(e, local2, incoming2)
  {
    AllIdsOnSide(e, local, incoming);
    AllIdsOnSide(e, local2, incoming2);
    assert AllIds(e, local, incoming) == AllIds(e, local2, incoming2) by {
      forall id
        ensures id in AllIds(e, local, incoming) <==> id in AllIds(e, local2, incoming2)
      {
        assert OnSide(e, local, incoming, id) <==> OnSide(e, local2, incoming2, id);
      }
    }
  }

  /** Permuting either list of records changes nothing in the result. */
  lemma OrderIndependent(
    e: Env, local: seq<Record>, incoming: seq<Record>, local2: seq<Record>, incoming2: seq<Record>)
    requires EnvOk(e) && SameRecords(local, local2) && SameRecords(incoming, incoming2)
    ensures DiffItems(e, local2, incoming2) == DiffItems(e, local, incoming)
  {
    forall id
      ensures OnSide(e, local, incoming, id) <==> OnSide(e, local2, incoming2, id)
      ensures OnSide(e, local, incoming, id) ==> ItemFor(e, local2, incoming2, id) == ItemFor(e, local, incoming, id)
    {
      ItemPermuted(e, local, incoming, local2, incoming2, id);
    }
    SameIds(e, local, incoming, local2, incoming2);
    ItemsAgree(e, local, incoming, local2, incoming2, SortedIds(e, local, incoming));
  }

  lemma {:induction false} ErrorMeans(e: Env, rs: seq<Record>)
    ensures FirstError(e, rs).None? <==> Keyed(e, rs)
  {
    if rs != [] {
      ErrorMeans(e, rs[1..]);
      if Keyed(e, rs[1..]) && KeyOf(e, rs[0]).Ok? {
        forall i | 0 <= i < |rs|
          ensures KeyOf(e, rs[i]).Ok?
        {
          assert i > 0 ==> rs[i] == rs[1..][i - 1];
        }
      }
      if Keyed(e, rs) {
        forall i | 0 <= i < |rs[1..]|
          ensures KeyOf(e, rs[1..][i]).Ok?
        {
          assert rs[1..][i] == rs[i + 1];
        }
      }
    }
  }

  /** Permuting records does not turn an error into a result, nor a result into an error. */
  lemma ErrorPermuted(e: Env, rs: seq<Record>, qs: seq<Record>)
    requires SameRecords(rs, qs)
    ensures FirstError(e, rs).None? <==> FirstError(e, qs).None?
  {
    ErrorMeans(e, rs);
    ErrorMeans(e, qs);
    forall i | 0 <= i < |qs|
      ensures qs[i] in rs
    {
      assert qs[i] in multiset(rs);
    }
    forall i | 0 <= i < |rs|
      ensures rs[i] in qs
    {
      assert rs[i] in multiset(qs);
    }
  }

  // ----- mirror symmetry -----

  function MirrorStatus(s: Status): Status {
    match s
    case MissingLocal => MissingIncoming
    case MissingIncoming => MissingLocal
    case _ => s
  }

  /** An item seen from the other side; which side repeats a key is not part of the symmetry. */
  function Mirror(it: Item): Item {
    Item(it.key, MirrorStatus(it.status), it.incoming, it.local, Compare.SwapDiffs(it.differences), NoDetail)
  }

  function WithoutDetail(it: Item): Item {
    it.(detail := NoDetail)
  }

  function Mirrored(items: seq<Item>): (r: seq<Item>)
    ensures |r| == |items| && forall i :: 0 <= i < |items| ==> r[i] == Mirror(items[i])
  {
    if items == [] then [] else [Mirror(items[0])] + Mirrored(items[1..])
  }

  function WithoutDetails(items: seq<Item>): (r: seq<Item>)
    ensures |r| == |items| && forall i :: 0 <= i < |items| ==> r[i] == WithoutDetail(items[i])
  {
    if items == [] then [] else [WithoutDetail(items[0])] + WithoutDetails(items[1..])
  }

  lemma PairedMirror(e: Env, key: Key, mine: Option<Record>, theirs: Option<Record>)
    requires mine.Some? || theirs.Some?
    requires mine.Some? && theirs.Some? ==> Compare.PayloadOk(mine.value.payload) && Compare.PayloadOk(theirs.value.payload)
    ensures Paired(e, key, theirs, mine) == Mirror(Paired(e, key, mine, theirs))
  {
    if mine.Some? && theirs.Some? {
      SwappedDifferences(e, mine.value, theirs.value);
    }
  }

  function Single(e: Env, rs: seq<Record>, id: string): Option<Record> {
    if Count(e, rs, id) > 0 then Some(First(e, rs, id)) else None
  }

  lemma SingleOk(e: Env, rs: seq<Record>, id: string)
    requires PayloadsOk(rs)
    ensures Single(e, rs, id).Some? ==> Compare.PayloadOk(Single(e, rs, id).value.payload)
  {
  }

  lemma SameKey(e: Env, local: seq<Record>, incoming: seq<Record>, id: string)
    requires EnvOk(e) && OnSide(e, local, incoming, id)
    ensures OnSide(e, incoming, local, id)
    ensures ItemFor(e, incoming, local, id).key == ItemFor(e, local, incoming, id).key
  {
    if Count(e, local, id) > 0 && Count(e, incoming, id) > 0 {
      OneKey(e, First(e, local, id), First(e, incoming, id), id);
    }
  }

  lemma ItemMirror(e: Env, local: seq<Record>, incoming: seq<Record>, id: string)
    requires EnvOk(e) && PayloadsOk(local) && PayloadsOk(incoming) && OnSide(e, local, incoming, id)
    ensures OnSide(e, incoming, local, id)
    ensures WithoutDetail(ItemFor(e, incoming, local, id)) == Mirror(ItemFor(e, local, incoming, id))
  {
    SameKey(e, local, incoming, id);
    SingleOk(e, local, id);
    SingleOk(e, incoming, id);
    if Count(e, local, id) <= 1 && Count(e, incoming, id) <= 1 {
      PairedMirror(e, ItemFor(e, local, incoming, id).key, Single(e, local, id), Single(e, incoming, id));
    }
  }

  lemma SwappedDifferences(e: Env, a: Record, b: Record)
    requires Compare.PayloadOk(a.payload) && Compare.PayloadOk(b.payload)
    ensures Compare.Differences(e, b, a) == Compare.SwapDiffs(Compare.Differences(e, a, b))
    ensures Compare.Differences(e, b, a) == [] <==> Compare.Differences(e, a, b) == []
  {
    Compare.DifferencesMirror(e, a, b);
  }

  /** Swapping the two lists mirrors every item: same keys, sides exchanged, differences exchanged. */
  lemma MirrorSymmetric(e: Env, local: seq<Record>, incoming: seq<Record>)
    requires EnvOk(e) && PayloadsOk(local) && PayloadsOk(incoming)
    ensures WithoutDetails(DiffItems(e, incoming, local)) == Mirrored(DiffItems(e, local, incoming))
  {
    SameIds(e, local, incoming, incoming, local);
    var ids := SortedIds(e, local, incoming);
    forall k | 0 <= k < |ids|
      ensures WithoutDetail(ItemFor(e, incoming, local, ids[k])) == Mirror(ItemFor(e, local, incoming, ids[k]))
    {
      ItemMirror(e, local, incoming, ids[k]);
    }
  }
}
