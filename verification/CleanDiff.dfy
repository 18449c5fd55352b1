/**
 When a reconciliation after an export comes out clean: exactly when every compared float is worth its
 decimal text. Were one not, the records that hold its value would be fewer after the way through
 JSON than before, and no pairing of the keys could make up for that.
 */
module CleanDiff {
  import opened Bytes
  import opened Wrappers
  import opened Ordering
  import opened Json
  import opened Container
  import opened Manifests
  import opened Trust
  import opened MatchKey
  import opened SortedRecords
  import opened Packages
  import opened Reimport
  import opened PackageTheorems
  import Compare
  import Classification
  import DiffTheorems

  /** The text of a float is worth no other float of the same field: shortest texts parse back to their own. */
  ghost predicate OwnTexts(w: World, rs: seq<Record>) {
    forall i, j, f :: 0 <= i < |rs| && 0 <= j < |rs| && FloatAt(rs[i], f) && FloatAt(rs[j], f) ==>
      OwnText(w, rs[i].payload[f].x, rs[j].payload[f].x)
  }

  predicate FloatAt(r: Record, f: string) {
    f in r.payload && r.payload[f].Float?
  }

  predicate OwnText(w: World, x: real, y: real) {
    w.e.n.rat(w.z.float(x)) == Some(y) ==> x == y
  }

  /** The record has this number in the field, in whatever form. */
  predicate Says(w: World, f: string, x: real, r: Record) {
    Compare.FieldMeaning(w.e, r.payload, f) == Some(Compare.MNumber(x))
  }

  function HowMany(w: World, f: string, x: real, rs: seq<Record>): nat {
    if rs == [] then 0 else (if Says(w, f, x, rs[0]) then 1 else 0) + HowMany(w, f, x, rs[1..])
  }

  // ----- counting by keys -----

  /** The keys of the records that say so. */
  function Sayers(w: World, f: string, x: real, rs: seq<Record>): set<string>
    requires Classification.Keyed(w.e, rs)
  {
    if rs == [] then {}
    else (if Says(w, f, x, rs[0]) then {IdOf(w.e, rs[0])} else {}) + Sayers(w, f, x, rs[1..])
  }

  lemma {:induction false} SayersAreKeys(w: World, f: string, x: real, rs: seq<Record>)
    requires Classification.Keyed(w.e, rs)
    ensures Sayers(w, f, x, rs) <= Classification.Ids(w.e, rs)
  {
    if rs != [] {
      SayersAreKeys(w, f, x, rs[1..]);
    }
  }

  lemma {:induction false} SayersSize(w: World, f: string, x: real, rs: seq<Record>)
    requires Distinct(w.e, rs)
    ensures |Sayers(w, f, x, rs)| == HowMany(w, f, x, rs)
  {
    if rs != [] {
      HeadIsNew(w.e, rs);
      SayersAreKeys(w, f, x, rs[1..]);
      SayersSize(w, f, x, rs[1..]);
    }
  }

  /** A key is among the sayers exactly when its record says so. */
  lemma {:induction false} SayersExact(w: World, f: string, x: real, rs: seq<Record>, id: string)
    requires Distinct(w.e, rs)
    ensures id in Sayers(w, f, x, rs) <==>
      Classification.Count(w.e, rs, id) > 0 && Says(w, f, x, Classification.First(w.e, rs, id))
  {
    if rs != [] {
      HeadIsNew(w.e, rs);
      SayersExact(w, f, x, rs[1..], id);
      SayersAreKeys(w, f, x, rs[1..]);
      Classification.IdsCount(w.e, rs[1..], id);
    }
  }

  // ----- the originals in order -----

  lemma SortedAt(w: World, rs: seq<Record>, k: nat)
    requires Distinct(w.e, rs) && k < |SortedKeys(w.e, rs)|
    ensures var id := SortedKeys(w.e, rs)[k];
      var r := InKeyOrder(w.e, rs)[k];
      r in rs && Classification.Has(w.e, r, id) && r == Classification.First(w.e, rs, id)
  {
  }

  lemma SortedDistinct(w: World, rs: seq<Record>)
    requires Distinct(w.e, rs)
    ensures Distinct(w.e, InKeyOrder(w.e, rs))
  {
    RankingChars();
    var ids, sorted := SortedKeys(w.e, rs), InKeyOrder(w.e, rs);
    SortedIncreases(CharRank, Classification.Ids(w.e, rs));
    forall k | 0 <= k < |sorted|
      ensures Classification.Has(w.e, sorted[k], ids[k])
    {
      SortedAt(w, rs, k);
    }
    forall j, k | 0 <= j < k < |sorted|
      ensures IdOf(w.e, sorted[j]) != IdOf(w.e, sorted[k])
    {
      assert Less(CharRank, ids[j], ids[k]);
    }
  }

  /** Sorting keeps every record under its key. */
  lemma SortedHas(w: World, rs: seq<Record>, id: string)
    requires Distinct(w.e, rs)
    ensures var sorted := InKeyOrder(w.e, rs);
      && (Classification.Count(w.e, sorted, id) > 0 <==> Classification.Count(w.e, rs, id) > 0)
      && (Classification.Count(w.e, rs, id) > 0 ==>
            Classification.First(w.e, sorted, id) == Classification.First(w.e, rs, id))
  {
    var ids, sorted := SortedKeys(w.e, rs), InKeyOrder(w.e, rs);
    SortedDistinct(w, rs);
    if Classification.Count(w.e, rs, id) > 0 {
      var k :| 0 <= k < |ids| && ids[k] == id;
      SortedAt(w, rs, k);
      TheRecord(w.e, sorted, sorted[k], id);
    }
    if Classification.Count(w.e, sorted, id) > 0 {
      var r := Classification.First(w.e, sorted, id);
      var k :| 0 <= k < |sorted| && sorted[k] == r;
      SortedAt(w, rs, k);
      assert ids[k] in ids;
    }
  }

  // ----- fewer records say so afterwards -----

  /** A record come back says nothing new, and one with an inexact float no longer says what it said. */
  lemma BackSaysLess(w: World, rs: seq<Record>, holder: Record, r: Record, f: string)
    requires NumbersOk(w) && OwnTexts(w, rs) && holder in rs && r in rs
    requires FloatAt(holder, f) && !FieldExact(w, holder.payload, f)
    ensures var x := holder.payload[f].x;
      && (Says(w, f, x, BackRecord(w, r)) ==> Says(w, f, x, r))
      && Says(w, f, x, holder) && !Says(w, f, x, BackRecord(w, holder))
  {
    var x := holder.payload[f].x;
    assert ValidNumber(w.z.float(x));
    FieldKept(w, r.payload, f);
    if FloatAt(r, f) {
      var i :| 0 <= i < |rs| && rs[i] == r;
      var j :| 0 <= j < |rs| && rs[j] == holder;
      assert OwnText(w, rs[i].payload[f].x, rs[j].payload[f].x);
      assert ValidNumber(w.z.float(r.payload[f].x));
    }
  }

  ghost predicate SaysLess(w: World, f: string, x: real, rs: seq<Record>, back: seq<Record>) {
    |back| == |rs| && forall i :: 0 <= i < |rs| ==> (Says(w, f, x, back[i]) ==> Says(w, f, x, rs[i]))
  }

  lemma {:induction false} FewerOrEqual(w: World, f: string, x: real, rs: seq<Record>, back: seq<Record>)
    requires SaysLess(w, f, x, rs, back)
    ensures HowMany(w, f, x, back) <= HowMany(w, f, x, rs)
  {
    if rs != [] {
      SaysLessTail(w, f, x, rs, back);
      FewerOrEqual(w, f, x, rs[1..], back[1..]);
    }
  }

  lemma {:induction false} Fewer(w: World, f: string, x: real, rs: seq<Record>, back: seq<Record>, k: nat)
    requires SaysLess(w, f, x, rs, back) && k < |rs| && Says(w, f, x, rs[k]) && !Says(w, f, x, back[k])
    ensures HowMany(w, f, x, back) < HowMany(w, f, x, rs)
  {
    SaysLessTail(w, f, x, rs, back);
    if k == 0 {
      FewerOrEqual(w, f, x, rs[1..], back[1..]);
    } else {
      Fewer(w, f, x, rs[1..], back[1..], k - 1);
    }
  }

  lemma SaysLessTail(w: World, f: string, x: real, rs: seq<Record>, back: seq<Record>)
    requires SaysLess(w, f, x, rs, back) && rs != []
    ensures SaysLess(w, f, x, rs[1..], back[1..])
  {
    assert forall i :: 0 <= i < |rs[1..]| ==> rs[1..][i] == rs[i + 1] && back[1..][i] == back[i + 1];
  }

  /** An inexact float makes the records that say its value fewer. */
  lemma InexactLosesOne(w: World, rs: seq<Record>, holder: Record, f: string)
    requires NumbersOk(w) && OwnTexts(w, rs) && Distinct(w.e, rs) && holder in rs
    requires FloatAt(holder, f) && !FieldExact(w, holder.payload, f)
    ensures var sorted := InKeyOrder(w.e, rs);
      HowMany(w, f, holder.payload[f].x, BackAll(w, sorted)) < HowMany(w, f, holder.payload[f].x, sorted)
  {
    var sorted, x := InKeyOrder(w.e, rs), holder.payload[f].x;
    var back := BackAll(w, sorted);
    forall i | 0 <= i < |sorted|
      ensures Says(w, f, x, back[i]) ==> Says(w, f, x, sorted[i])
    {
      SortedAt(w, rs, i);
      BackSaysLess(w, rs, holder, sorted[i], f);
    }
    var k := PlaceOf(w.e, rs, holder);
    BackSaysLess(w, rs, holder, holder, f);
    Fewer(w, f, x, sorted, back, k);
  }

  // ----- a clean result pairs the keys -----

  /** In a clean result every key of either side is there once on both, with records that mean the same. */
  lemma CleanPairs(w: World, local: seq<Record>, incoming: seq<Record>, id: string)
    requires DiffTheorems.PayloadsOk(local) && DiffTheorems.PayloadsOk(incoming)
    requires Clean(Classification.DiffItems(w.e, local, incoming)) && Classification.OnSide(w.e, local, incoming, id)
    ensures Classification.Count(w.e, local, id) == Classification.Count(w.e, incoming, id) == 1
    ensures Compare.Identical(w.e, Classification.First(w.e, local, id), Classification.First(w.e, incoming, id))
  {
    DiffTheorems.EachKeyOnce(w.e, local, incoming, id);
    DiffTheorems.StatusMeans(w.e, local, incoming, id);
  }

  lemma CleanIsDistinct(w: World, local: seq<Record>, incoming: seq<Record>)
    requires DiffTheorems.PayloadsOk(local) && DiffTheorems.PayloadsOk(incoming)
    requires Clean(Classification.DiffItems(w.e, local, incoming)) && Classification.Keyed(w.e, incoming)
    ensures Distinct(w.e, incoming)
  {
    forall i, j | 0 <= i < j < |incoming|
      ensures IdOf(w.e, incoming[i]) != IdOf(w.e, incoming[j])
    {
      var id := IdOf(w.e, incoming[i]);
      Classification.CountOfMember(w.e, incoming, i, id);
      CleanPairs(w, local, incoming, id);
      if IdOf(w.e, incoming[j]) == id {
        DiffTheorems.CountedTwice(w.e, incoming, i, j, id);
      }
    }
  }

  lemma BackOk(w: World, rs: seq<Record>)
    requires NumbersOk(w) && Distinct(w.e, rs) && DiffTheorems.PayloadsOk(rs)
    ensures DiffTheorems.PayloadsOk(BackAll(w, InKeyOrder(w.e, rs)))
  {
    var sorted := InKeyOrder(w.e, rs);
    forall k | 0 <= k < |sorted|
      ensures Compare.PayloadOk(BackAll(w, sorted)[k].payload)
    {
      SortedAt(w, rs, k);
      BackPayloadOk(w, sorted[k].payload);
    }
  }

  /** So the same keys' records say a number before and after, */
  lemma SameSayer(w: World, rs: seq<Record>, f: string, x: real, id: string)
    requires NumbersOk(w) && Distinct(w.e, rs) && DiffTheorems.PayloadsOk(rs) && !Compare.LocalOnly(f)
    requires Distinct(w.e, InKeyOrder(w.e, rs))
    requires var back := BackAll(w, InKeyOrder(w.e, rs));
      Distinct(w.e, back) && Clean(Classification.DiffItems(w.e, rs, back))
    ensures var sorted := InKeyOrder(w.e, rs);
      id in Sayers(w, f, x, sorted) <==> id in Sayers(w, f, x, BackAll(w, sorted))
  {
    var sorted := InKeyOrder(w.e, rs);
    var back := BackAll(w, sorted);
    BackOk(w, rs);
    SayersExact(w, f, x, sorted, id);
    SayersExact(w, f, x, back, id);
    SortedHas(w, rs, id);
    if Classification.OnSide(w.e, rs, back, id) {
      CleanPairs(w, rs, back, id);
    }
  }

  /** and as many records say a number before as after. */
  lemma CleanSaysSame(w: World, rs: seq<Record>, f: string, x: real)
    requires NumbersOk(w) && Distinct(w.e, rs) && DiffTheorems.PayloadsOk(rs) && !Compare.LocalOnly(f)
    requires var back := BackAll(w, InKeyOrder(w.e, rs));
      Classification.Keyed(w.e, back) && Clean(Classification.DiffItems(w.e, rs, back))
    ensures var sorted := InKeyOrder(w.e, rs);
      HowMany(w, f, x, BackAll(w, sorted)) == HowMany(w, f, x, sorted)
  {
    var sorted := InKeyOrder(w.e, rs);
    var back := BackAll(w, sorted);
    BackOk(w, rs);
    SortedDistinct(w, rs);
    CleanIsDistinct(w, rs, back);
    SayersSize(w, f, x, sorted);
    SayersSize(w, f, x, back);
    forall id
      ensures id in Sayers(w, f, x, sorted) <==> id in Sayers(w, f, x, back)
    {
      SameSayer(w, rs, f, x, id);
    }
    assert Sayers(w, f, x, sorted) == Sayers(w, f, x, back);
  }

  /**
   Reconciling the originals with what came back, where every record that came back still has a key,
   is clean exactly when every compared float is worth its decimal text: always for integers and
   for numbers kept as text.
   */
  lemma CleanExactly(w: World, rs: seq<Record>)
    requires NumbersOk(w) && KeysCompared(w.e.k) && OwnTexts(w, rs)
    requires Distinct(w.e, rs) && DiffTheorems.PayloadsOk(rs) && Classification.Keyed(w.e, BackAll(w, InKeyOrder(w.e, rs)))
    ensures Clean(Classification.DiffItems(w.e, rs, BackAll(w, InKeyOrder(w.e, rs)))) <==> AllExact(w, rs)
  {
    if AllExact(w, rs) {
      ExactIsClean(w, rs);
    }
    if Clean(Classification.DiffItems(w.e, rs, BackAll(w, InKeyOrder(w.e, rs)))) {
      forall i, f | 0 <= i < |rs| && f in rs[i].payload && !Compare.LocalOnly(f)
        ensures FieldExact(w, rs[i].payload, f)
      {
        if FloatAt(rs[i], f) {
          CleanIsExactHere(w, rs, rs[i], f);
        }
      }
    }
  }

  lemma CleanIsExactHere(w: World, rs: seq<Record>, holder: Record, f: string)
    requires NumbersOk(w) && OwnTexts(w, rs) && Distinct(w.e, rs) && DiffTheorems.PayloadsOk(rs)
    requires var back := BackAll(w, InKeyOrder(w.e, rs));
      Classification.Keyed(w.e, back) && Clean(Classification.DiffItems(w.e, rs, back))
    requires holder in rs && FloatAt(holder, f) && !Compare.LocalOnly(f)
    ensures FieldExact(w, holder.payload, f)
  {
    CleanSaysSame(w, rs, f, holder.payload[f].x);
    if !FieldExact(w, holder.payload, f) {
      InexactLosesOne(w, rs, holder, f);
    }
  }

  /**
   Export, Open, Diff: whenever an addressed recipient who trusts the sender opens the package, the
   originals against what was opened are identical item by item exactly when every compared float is
   worth its decimal text; and then the package does open.
   */
  lemma ExportOpenDiff(
    w: World, q: Request, clock: int, recipients: seq<ManifestRecipient>, data: bytes,
    p: ImportPolicy, clock2: int, x: Encrypted, s: Signature, signer: SignerMetadata)
    requires WorldOk(w) && Sent(w, q, clock, recipients, data, x, s) && Receives(w, p, clock2, q, x, s, signer)
    requires DiffTheorems.PayloadsOk(q.records) && OwnTexts(w, q.records)
    ensures var opens := OpenSpec(w, p, clock2, data);
      && (AllExact(w, q.records) ==> opens.Ok?)
      && (opens.Ok? ==>
            (Clean(Classification.DiffItems(w.e, q.records, opens.value.records)) <==> AllExact(w, q.records)))
  {
    FitExact(w.e, q.records, {});
    OpensAsExported(w, q, clock, recipients, data, p, clock2, x, s, signer);
    CleanOrLost(w, q.records);
  }

  /** Exact records keep their keys; and where all keys are there, only exact records come out clean. */
  lemma CleanOrLost(w: World, rs: seq<Record>)
    requires NumbersOk(w) && KeysCompared(w.e.k) && OwnTexts(w, rs)
    requires Distinct(w.e, rs) && DiffTheorems.PayloadsOk(rs)
    ensures var back := BackAll(w, InKeyOrder(w.e, rs));
      && (AllExact(w, rs) ==> Classification.Keyed(w.e, back))
      && (Classification.Keyed(w.e, back) ==> (Clean(Classification.DiffItems(w.e, rs, back)) <==> AllExact(w, rs)))
  {
    if AllExact(w, rs) {
      ExactIsClean(w, rs);
    } else if Classification.Keyed(w.e, BackAll(w, InKeyOrder(w.e, rs))) {
      CleanExactly(w, rs);
    }
  }
}
