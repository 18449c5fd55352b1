/** IndexByKey: records by their keys, where a repeated key is an error and never the last record's to win. */
module KeyIndex {
  import opened Wrappers
  import opened MatchKey
  import opened Classification
  import opened SortedRecords
  import Container

  function FirstRecord(e: Env, rs: seq<Record>, id: string): Option<Record> {
    if Count(e, rs, id) > 0 then Some(First(e, rs, id)) else None
  }

  ghost predicate IndexOf(e: Env, rs: seq<Record>, index: map<string, Record>) {
    forall id :: Lookup(index, id) == FirstRecord(e, rs, id)
  }

  /** The keys of the records that repeat an earlier record's key. */
  function Repeated(e: Env, rs: seq<Record>): seq<Key>
    requires Keyed(e, rs)
  {
    if rs == [] then []
    else
      var last := |rs| - 1;
      var key := KeyOf(e, rs[last]).value;
      Repeated(e, rs[..last]) + if Count(e, rs[..last], KeyString(key)) > 0 then [key] else []
  }

  lemma IndexGrows(e: Env, rs: seq<Record>, index: map<string, Record>, r: Record)
    requires IndexOf(e, rs, index) && KeyOf(e, r).Ok?
    ensures IndexOf(e, rs + [r], if IdOf(e, r) in index then index else index[IdOf(e, r) := r])
  {
    var next := if IdOf(e, r) in index then index else index[IdOf(e, r) := r];
    forall id
      ensures Lookup(next, id) == FirstRecord(e, rs + [r], id)
    {
      FirstAfter(e, rs, r, id);
      assert Lookup(index, id) == FirstRecord(e, rs, id);
    }
  }

  lemma FirstAfter(e: Env, rs: seq<Record>, r: Record, id: string)
    requires KeyOf(e, r).Ok?
    ensures FirstRecord(e, rs + [r], id) ==
      if FirstRecord(e, rs, id).None? && id == IdOf(e, r) then Some(r) else FirstRecord(e, rs, id)
  {
    CountAppend(e, rs, [r], id);
    CountOne(e, r, id);
    if Count(e, rs + [r], id) > 0 {
      FirstSnoc(e, rs, r, id);
    }
  }

  lemma RepeatedSnoc(e: Env, rs: seq<Record>, r: Record)
    requires Keyed(e, rs) && KeyOf(e, r).Ok?
    ensures Keyed(e, rs + [r])
    ensures Repeated(e, rs + [r]) == Repeated(e, rs) + if Count(e, rs, IdOf(e, r)) > 0 then [KeyOf(e, r).value] else []
  {
    assert (rs + [r])[..|rs|] == rs;
  }

  /** No key is repeated exactly when all records have keys of their own. */
  lemma {:induction false} NoneRepeated(e: Env, rs: seq<Record>)
    requires Keyed(e, rs)
    ensures Repeated(e, rs) == [] <==> Distinct(e, rs)
  {
    if rs != [] {
      var last := |rs| - 1;
      NoneRepeated(e, rs[..last]);
      LastIsNew(e, rs);
    }
  }

  ghost predicate OtherIds(e: Env, rs: seq<Record>, id: string) {
    forall i :: 0 <= i < |rs| ==> !Has(e, rs[i], id)
  }

  lemma NotCounted(e: Env, rs: seq<Record>, id: string)
    ensures Count(e, rs, id) == 0 <==> OtherIds(e, rs, id)
  {
    if Count(e, rs, id) > 0 {
      var r := First(e, rs, id);
      var i :| 0 <= i < |rs| && rs[i] == r;
      assert Has(e, rs[i], id);
    } else {
      forall i | 0 <= i < |rs|
        ensures !Has(e, rs[i], id)
      {
        if Has(e, rs[i], id) {
          CountOfMember(e, rs, i, id);
        }
      }
    }
  }

  lemma DistinctSnoc(e: Env, init: seq<Record>, r: Record)
    requires Keyed(e, init) && KeyOf(e, r).Ok?
    ensures Distinct(e, init + [r]) <==> Distinct(e, init) && OtherIds(e, init, IdOf(e, r))
  {
    var rs := init + [r];
    assert forall i :: 0 <= i < |init| ==> rs[i] == init[i];
    assert rs[|init|] == r;
    if Distinct(e, rs) {
      forall i | 0 <= i < |init|
        ensures !Has(e, init[i], IdOf(e, r))
      {
        assert IdOf(e, rs[i]) != IdOf(e, rs[|init|]);
      }
    }
  }

  lemma LastIsNew(e: Env, rs: seq<Record>)
    requires Keyed(e, rs) && rs != []
    ensures var init, r := rs[..|rs| - 1], rs[|rs| - 1];
      Distinct(e, rs) <==> Distinct(e, init) && Count(e, init, IdOf(e, r)) == 0
  {
    var init, r := rs[..|rs| - 1], rs[|rs| - 1];
    assert rs == init + [r];
    NotCounted(e, init, IdOf(e, r));
    DistinctSnoc(e, init, r);
  }

  /** The index and the duplicates after some records. */
  ghost predicate IndexedSoFar(e: Env, rs: seq<Record>, index: map<string, Record>, duplicates: seq<Key>) {
    Keyed(e, rs) && IndexOf(e, rs, index) && duplicates == Repeated(e, rs)
  }

  lemma IndexOneMore(e: Env, rs: seq<Record>, k: nat, index: map<string, Record>, duplicates: seq<Key>, key: Key)
    requires k < |rs| && IndexedSoFar(e, rs[..k], index, duplicates) && KeyOf(e, rs[k]) == Ok(key)
    ensures var id := KeyString(key);
      IndexedSoFar(e, rs[..k + 1], if id in index then index else index[id := rs[k]],
                   if id in index then duplicates + [key] else duplicates)
  {
    assert rs[..k + 1] == rs[..k] + [rs[k]];
    IndexGrows(e, rs[..k], index, rs[k]);
    RepeatedGrows(e, rs[..k], index, duplicates, rs[k]);
  }

  lemma RepeatedGrows(e: Env, rs: seq<Record>, index: map<string, Record>, duplicates: seq<Key>, r: Record)
    requires IndexedSoFar(e, rs, index, duplicates) && KeyOf(e, r).Ok?
    ensures Keyed(e, rs + [r])
    ensures Repeated(e, rs + [r]) == if IdOf(e, r) in index then duplicates + [KeyOf(e, r).value] else duplicates
  {
    assert Lookup(index, IdOf(e, r)) == FirstRecord(e, rs, IdOf(e, r));
    RepeatedSnoc(e, rs, r);
  }

  method IndexByKey(e: Env, records: seq<Record>)
    returns (failed: Option<Error>, index: map<string, Record>, duplicates: seq<Key>)
    ensures match FirstError(e, records)
      case Some(x) => failed == Some(x)
      case None =>
        && failed == (if Distinct(e, records) then None else Some(Container.DuplicateKey))
        && IndexOf(e, records, index) && Keyed(e, records) && duplicates == Repeated(e, records)
  {
    index, duplicates := map[], [];
    var k := 0;
    while k < |records|
      invariant k <= |records| && FirstError(e, records) == FirstError(e, records[k..])
      invariant IndexedSoFar(e, records[..k], index, duplicates)
    {
      var record := records[k];
      var key := KeyOf(e, record);
      ErrorAt(e, records, k);
      if key.Err? {
        return Some(key.error), map[], [];
      }
      IndexOneMore(e, records, k, index, duplicates, key.value);
      var id := KeyString(key.value);
      if id in index {
        duplicates := duplicates + [key.value];
      } else {
        index := index[id := record];
      }
      k := k + 1;
    }
    assert records[..k] == records;
    NoneRepeated(e, records);
    failed := if |duplicates| > 0 then Some(Container.DuplicateKey) else None;
  }
}
