/**
 What a comparison shows: which fields, in which order, and on which side which value. Values are the same
 when they mean the same, and what a value means is told from its type and text alone.
 */
module ShownDifferences {
  import opened Wrappers
  import opened Ordering
  import opened Json
  import opened CanonicalJson
  import opened MatchKey
  import opened FieldValues
  import opened Compare
  import Classification
  import DiffTheorems

  // ----- what a value means -----

  /** A field that is not filled in: it is missing, null, or nothing but spaces. */
  ghost predicate NotFilled(e: Env, p: Payload, f: string) {
    f !in p || p[f] == Tree(Null) || (p[f].Tree? && p[f].j.Str? && Blank(e.u, p[f].j.s))
  }

  /** What a field means: nothing, a number, a text without the spaces around it, or other JSON. */
  lemma MeaningExact(e: Env, p: Payload, f: string)
    ensures FieldMeaning(e, p, f) == None <==> NotFilled(e, p, f)
    ensures forall x :: FieldMeaning(e, p, f) == Some(MNumber(x)) <==> f in p && Worth(e, p[f], x)
    ensures forall t :: FieldMeaning(e, p, f) == Some(MText(t)) <==>
      t != "" && f in p && p[f].Tree? && p[f].j.Str? && Trimmed(e.u, p[f].j.s, t)
    ensures forall t :: FieldMeaning(e, p, f) == Some(MOther(t)) ==> f in p && p[f].Tree? && t == Print(p[f].j)
  {
    if f in p && p[f].Tree? && p[f].j.Str? {
      TrimOfBlank(e.u, p[f].j.s);
      forall t
        ensures Trimmed(e.u, p[f].j.s, t) <==> t == Trim(e.u, p[f].j.s)
      {
        TrimExact(e.u, p[f].j.s, t);
      }
    }
  }

  /** Amounts are the same when their trimmed texts are worth the same, or are the same and worth nothing. */
  lemma AmountMeans(e: Env, s: string, t: string)
    requires Trimmed(e.u, s, t)
    ensures AmountMeaning(e, s) == if e.n.rat(t).Some? then Exact(e.n.rat(t).value) else Text(t)
  {
    TrimExact(e.u, s, t);
  }

  // ----- the differences of a payload -----

  /** One difference, as it is shown: the field's name, the local value and the incoming value, if any. */
  ghost predicate Shows(d: FieldDiff, f: string, local: Payload, incoming: Payload) {
    && d.field == "payload." + f
    && (if f in local then d.local == Field(Some(local[f])) else d.local == Field(None))
    && (if f in incoming then d.incoming == Field(Some(incoming[f])) else d.incoming == Field(None))
  }

  /** The differences shown for these fields, in this order. */
  ghost predicate ShowsAll(ds: seq<FieldDiff>, fs: seq<string>, local: Payload, incoming: Payload) {
    |ds| == |fs| && forall k :: 0 <= k < |ds| ==> Shows(ds[k], fs[k], local, incoming)
  }

  /** The fields that differ: not of one system alone, and of different meaning on the two sides. */
  ghost predicate Differs(e: Env, local: Payload, incoming: Payload, f: string) {
    !LocalOnly(f) && FieldMeaning(e, local, f) != FieldMeaning(e, incoming, f)
  }

  lemma {:induction false} PayloadDiffsShown(e: Env, l: Payload, i: Payload, names: seq<string>) returns (fs: seq<string>)
    requires Increasing(CharRank, names)
    ensures Increasing(CharRank, fs) && ShowsAll(PayloadDiffs(e, l, i, names), fs, l, i)
    ensures forall f :: f in fs <==> f in names && !FieldAgrees(e, l, i, f)
  {
    if names == [] {
      fs := [];
    } else {
      var rest := names[1..];
      assert forall f :: f in names <==> f == names[0] || f in rest;
      var more := PayloadDiffsShown(e, l, i, rest);
      if FieldAgrees(e, l, i, names[0]) {
        assert PayloadDiffs(e, l, i, names) == PayloadDiffs(e, l, i, rest);
        fs := more;
      } else {
        fs := [names[0]] + more;
        FirstIsLeast(names, more);
      }
    }
  }

  lemma FirstIsLeast(names: seq<string>, more: seq<string>)
    requires names != [] && Increasing(CharRank, names) && Increasing(CharRank, more)
    requires forall f :: f in more ==> f in names[1..]
    ensures Increasing(CharRank, [names[0]] + more)
  {
    forall k | 0 <= k < |more|
      ensures Less(CharRank, names[0], more[k])
    {
      assert more[k] in names[1..];
      var j :| 0 < j < |names| && names[j] == more[k];
    }
  }

  lemma DiffersNamed(e: Env, l: Payload, i: Payload, f: string)
    requires PayloadOk(l) && PayloadOk(i) && Ranking(CharRank)
    ensures Differs(e, l, i, f) <==> f in FieldNames(l, i) && !FieldAgrees(e, l, i, f)
  {
    SortedElements(CharRank, ComparedFields(l, i));
    FieldAgreesMeans(e, l, i, f);
  }

  /** The difference of the audience and that of the amount, each if there is one. */
  ghost predicate ShowsHead(e: Env, a: Record, b: Record, ds: seq<FieldDiff>) {
    var audience := FieldDiff("audience", Plain(a.audience), Plain(b.audience));
    var amount := FieldDiff("amount_rub", Plain(a.amountRub), Plain(b.amountRub));
    if a.audience != b.audience then
      if AmountMeaning(e, a.amountRub) != AmountMeaning(e, b.amountRub) then ds == [audience, amount] else ds == [audience]
    else
      if AmountMeaning(e, a.amountRub) != AmountMeaning(e, b.amountRub) then ds == [amount] else ds == []
  }

  /** What a comparison of a local and an incoming record has to show. */
  ghost predicate ShowsDifferences(e: Env, a: Record, b: Record, ds: seq<FieldDiff>) {
    exists head, tail, fs ::
      ds == head + tail && ShowsHead(e, a, b, head) && ShowsPayload(e, a.payload, b.payload, tail, fs)
  }

  ghost predicate ShowsPayload(e: Env, l: Payload, i: Payload, ds: seq<FieldDiff>, fs: seq<string>) {
    && ShowsAll(ds, fs, l, i)
    && Increasing(CharRank, fs) && forall f :: f in fs <==> Differs(e, l, i, f)
  }

  /**
   A comparison shows the audience and the amount if they differ, and then every field whose meaning differs
   and no other, once and in the order of the names, always the local value on the local side.
   */
  lemma DifferencesShown(e: Env, a: Record, b: Record)
    requires PayloadOk(a.payload) && PayloadOk(b.payload)
    ensures ShowsDifferences(e, a, b, Differences(e, a, b))
  {
    RankingChars();
    var l, i := a.payload, b.payload;
    SortedIncreases(CharRank, ComparedFields(l, i));
    var fs := PayloadDiffsShown(e, l, i, FieldNames(l, i));
    forall f
      ensures f in fs <==> Differs(e, l, i, f)
    {
      DiffersNamed(e, l, i, f);
    }
    HeadShown(e, a, b);
    assert ShowsPayload(e, l, i, PayloadDiffs(e, l, i, FieldNames(l, i)), fs);
    assert Differences(e, a, b) == HeadDiffs(e, a, b) + PayloadDiffs(e, l, i, FieldNames(l, i));
  }

  lemma HeadShown(e: Env, a: Record, b: Record)
    ensures ShowsHead(e, a, b, HeadDiffs(e, a, b))
  {
  }

  /** There is one such list only, so a comparison that shows this is the comparison. */
  lemma ShownOnce(e: Env, a: Record, b: Record, ds: seq<FieldDiff>, es: seq<FieldDiff>)
    requires ShowsDifferences(e, a, b, ds) && ShowsDifferences(e, a, b, es)
    ensures ds == es
  {
    var h, t, fs :| ds == h + t && ShowsHead(e, a, b, h) && ShowsPayload(e, a.payload, b.payload, t, fs);
    var g, u, gs :| es == g + u && ShowsHead(e, a, b, g) && ShowsPayload(e, a.payload, b.payload, u, gs);
    PayloadShownOnce(e, a.payload, b.payload, t, fs, u, gs);
  }

  lemma PayloadShownOnce(
    e: Env, l: Payload, i: Payload, ds: seq<FieldDiff>, fs: seq<string>, es: seq<FieldDiff>, gs: seq<string>)
    requires ShowsPayload(e, l, i, ds, fs) && ShowsPayload(e, l, i, es, gs)
    ensures ds == es
  {
    RankingChars();
    var names := set f | f in fs;
    SortedUnique(CharRank, names, fs);
    SortedUnique(CharRank, names, gs);
    forall k | 0 <= k < |ds|
      ensures ds[k] == es[k]
    {
      assert Shows(ds[k], fs[k], l, i) && Shows(es[k], fs[k], l, i);
    }
  }

  /** The item of a key that is there once on either side shows the comparison of the two records. */
  lemma ItemShows(e: Env, local: seq<Record>, incoming: seq<Record>, id: string)
    requires DiffTheorems.PayloadsOk(local) && DiffTheorems.PayloadsOk(incoming)
    requires Classification.Count(e, local, id) == 1 && Classification.Count(e, incoming, id) == 1
    ensures var it := Classification.ItemFor(e, local, incoming, id);
      var mine, theirs := Classification.First(e, local, id), Classification.First(e, incoming, id);
      && it.local == Some(mine) && it.incoming == Some(theirs)
      && ShowsDifferences(e, mine, theirs, it.differences)
  {
    var mine, theirs := Classification.First(e, local, id), Classification.First(e, incoming, id);
    DifferencesShown(e, mine, theirs);
  }

  /** The fields that each system has for itself: its organisation's name, and every identifier. */
  lemma LocalOnlyExact(f: string)
    ensures LocalOnly(f) <==> f == "org_name" || exists stem: string :: f == stem + "_id"
  {
    if LocalOnly(f) && f != "org_name" {
      assert f == f[..|f| - 3] + "_id";
    }
    forall stem: string | f == stem + "_id"
      ensures f[|f| - 3..] == "_id"
    {
    }
  }
}
