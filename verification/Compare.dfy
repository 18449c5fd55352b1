/** When two records with one key say the same: the comparison of fields, and what it decides. */
module Compare {
  import opened Sequences
  import opened Wrappers
  import opened Ordering
  import opened Json
  import opened CanonicalJson
  import opened MatchKey

  type Payload = map<string, Value>

  /** A value shown in a difference: a plain text, or a payload value that may be missing. */
  datatype Shown = Plain(s: string) | Field(v: Option<Value>)

  datatype FieldDiff = FieldDiff(field: string, local: Shown, incoming: Shown)

  predicate LocalOnly(field: string) {
    field == "org_name" || (|field| >= 3 && field[|field| - 3..] == "_id")
  }

  function Get(p: Payload, field: string): Option<Value> {
    if field in p then Some(p[field]) else None
  }

  /** Missing, null and blank are all "not filled in". */
  predicate IsEmpty(e: Env, v: Option<Value>) {
    match v
    case None => true
    case Some(Tree(Null)) => true
    case Some(Tree(Str(s))) => Trim(e.u, s) == ""
    case _ => false
  }

  function Number(e: Env, v: Value): Option<real> {
    match v
    case Int(i) => Some(i as real)
    case Float(x) => Some(x)
    case Tree(Num(t)) => e.n.rat(t)
    case _ => None
  }

  function MarshalText(v: Value): string {
    if v.Tree? then Print(v.j) else ""
  }

  /** Numbers by value, strings by their trimmed text, everything else by its JSON text. */
  predicate SameValue(e: Env, a: Value, b: Value) {
    if Number(e, a).Some? then Number(e, b) == Number(e, a)
    else if Number(e, b).Some? then false
    else if a.Tree? && a.j.Str? then b.Tree? && b.j.Str? && Trim(e.u, a.j.s) == Trim(e.u, b.j.s)
    else MarshalText(a) == MarshalText(b)
  }

  predicate SameNumber(e: Env, a: string, b: string) {
    var x, y := e.n.rat(Trim(e.u, a)), e.n.rat(Trim(e.u, b));
    if x.Some? && y.Some? then x == y else Trim(e.u, a) == Trim(e.u, b)
  }

  predicate FieldAgrees(e: Env, l: Payload, i: Payload, field: string) {
    || (IsEmpty(e, Get(l, field)) && IsEmpty(e, Get(i, field)))
    || (field in l && field in i && SameValue(e, l[field], i[field]))
  }

  /** The fields that are compared: those of either side, except the ones each system has for itself. */
  function ComparedFields(l: Payload, i: Payload): set<string> {
    set f | f in l.Keys + i.Keys && !LocalOnly(f)
  }

  function FieldNames(l: Payload, i: Payload): seq<string> {
    RankingChars();
    Sorted(CharRank, ComparedFields(l, i))
  }

  function OfField(e: Env, l: Payload, i: Payload, field: string): seq<FieldDiff> {
    if FieldAgrees(e, l, i, field) then [] else [FieldDiff("payload." + field, Field(Get(l, field)), Field(Get(i, field)))]
  }

  function PayloadDiffs(e: Env, l: Payload, i: Payload, names: seq<string>): seq<FieldDiff> {
    if names == [] then [] else OfField(e, l, i, names[0]) + PayloadDiffs(e, l, i, names[1..])
  }

  function AudienceDiff(local: Record, incoming: Record): seq<FieldDiff> {
    if local.audience == incoming.audience then []
    else [FieldDiff("audience", Plain(local.audience), Plain(incoming.audience))]
  }

  function AmountDiff(e: Env, local: Record, incoming: Record): seq<FieldDiff> {
    if SameNumber(e, local.amountRub, incoming.amountRub) then []
    else [FieldDiff("amount_rub", Plain(local.amountRub), Plain(incoming.amountRub))]
  }

  function HeadDiffs(e: Env, local: Record, incoming: Record): seq<FieldDiff> {
    AudienceDiff(local, incoming) + AmountDiff(e, local, incoming)
  }

  function Differences(e: Env, local: Record, incoming: Record): seq<FieldDiff> {
    HeadDiffs(e, local, incoming)
      + PayloadDiffs(e, local.payload, incoming.payload, FieldNames(local.payload, incoming.payload))
  }

  lemma {:induction false} PayloadDiffsAppend(e: Env, l: Payload, i: Payload, a: seq<string>, b: seq<string>)
    ensures PayloadDiffs(e, l, i, a + b) == PayloadDiffs(e, l, i, a) + PayloadDiffs(e, l, i, b)
  {
    if a == [] {
      assert a + b == b;
    } else {
      AppendTail(a, b);
      PayloadDiffsAppend(e, l, i, a[1..], b);
      ConcatAssoc(OfField(e, l, i, a[0]), PayloadDiffs(e, l, i, a[1..]), PayloadDiffs(e, l, i, b));
    }
  }

  lemma OneMoreField(e: Env, l: Payload, i: Payload, names: seq<string>, k: nat)
    requires k < |names|
    ensures PayloadDiffs(e, l, i, names[..k + 1]) == PayloadDiffs(e, l, i, names[..k]) + OfField(e, l, i, names[k])
  {
    assert names[..k + 1] == names[..k] + [names[k]];
    PayloadDiffsAppend(e, l, i, names[..k], [names[k]]);
  }

  /** The loop of compare: a difference for each name that is neither empty nor the same on both sides. */
  method ComparePayloads(e: Env, local: Payload, incoming: Payload, names: seq<string>) returns (diffs: seq<FieldDiff>)
    ensures diffs == PayloadDiffs(e, local, incoming, names)
  {
    diffs := [];
    var k := 0;
    while k < |names|
      invariant k <= |names|
      invariant diffs == PayloadDiffs(e, local, incoming, names[..k])
    {
      var field := names[k];
      OneMoreField(e, local, incoming, names, k);
      var mine, theirs := Get(local, field), Get(incoming, field);
      if !(IsEmpty(e, mine) && IsEmpty(e, theirs)) {
        if !(mine.Some? && theirs.Some? && SameValue(e, mine.value, theirs.value)) {
          diffs := diffs + [FieldDiff("payload." + field, Field(mine), Field(theirs))];
        }
      }
      k := k + 1;
    }
    assert names[..k] == names;
  }

  method CompareRecords(e: Env, local: Record, incoming: Record) returns (diffs: seq<FieldDiff>)
    ensures diffs == Differences(e, local, incoming)
  {
    diffs := [];
    if local.audience != incoming.audience {
      diffs := diffs + [FieldDiff("audience", Plain(local.audience), Plain(incoming.audience))];
    }
    if !SameNumber(e, local.amountRub, incoming.amountRub) {
      diffs := diffs + [FieldDiff("amount_rub", Plain(local.amountRub), Plain(incoming.amountRub))];
    }
    assert diffs == HeadDiffs(e, local, incoming);
    var more := ComparePayloads(e, local.payload, incoming.payload, FieldNames(local.payload, incoming.payload));
    diffs := diffs + more;
  }

  // ----- what the comparison decides -----

  /** A value up to what the comparison sees of it. */
  datatype Meaning = MNumber(r: real) | MText(s: string) | MOther(json: string)

  function MeaningOf(e: Env, v: Value): Meaning {
    if Number(e, v).Some? then MNumber(Number(e, v).value)
    else if v.Tree? && v.j.Str? then MText(Trim(e.u, v.j.s))
    else MOther(MarshalText(v))
  }

  function FieldMeaning(e: Env, p: Payload, field: string): Option<Meaning> {
    if IsEmpty(e, Get(p, field)) then None else Some(MeaningOf(e, p[field]))
  }

  datatype Amount = Exact(r: real) | Text(s: string)

  function AmountMeaning(e: Env, s: string): Amount {
    match e.n.rat(Trim(e.u, s))
    case Some(r) => Exact(r)
    case None => Text(Trim(e.u, s))
  }

  /** Payloads of decoded JSON: valid numbers, limited nesting. */
  ghost predicate PayloadOk(p: Payload) {
    forall f :: f in p && p[f].Tree? ==> WellFormed(p[f].j, 0)
  }

  lemma QuoteStartsText(v: Json)
    requires WellFormed(v, 0)
    ensures Print(v) != "" && (Print(v)[0] == '\"' <==> v.Str?)
  {
    if v.Num? {
      FirstOfNumber(v.text);
    }
  }

  lemma SameValueMeans(e: Env, a: Value, b: Value)
    requires (a.Tree? ==> WellFormed(a.j, 0)) && (b.Tree? ==> WellFormed(b.j, 0))
    ensures SameValue(e, a, b) <==> MeaningOf(e, a) == MeaningOf(e, b)
  {
    if Number(e, a).None? && Number(e, b).None? {
      QuoteStartsText(a.j);
      QuoteStartsText(b.j);
    }
  }

  /** Only null prints as null. */
  lemma NullText(v: Json)
    requires WellFormed(v, 0) && Print(v) == Print(Null)
    ensures v.Null?
  {
    assert Print(v) + "" == Print(Null) + "";
    PrintInjective(v, Null, 0, "", "");
  }

  lemma FieldAgreesMeans(e: Env, l: Payload, i: Payload, field: string)
    requires PayloadOk(l) && PayloadOk(i)
    ensures FieldAgrees(e, l, i, field) <==> FieldMeaning(e, l, field) == FieldMeaning(e, i, field)
  {
    if field in l && field in i {
      SameValueMeans(e, l[field], i[field]);
      if MeaningOf(e, l[field]) == MeaningOf(e, i[field]) {
        EmptyMeaning(e, l[field], i[field]);
        EmptyMeaning(e, i[field], l[field]);
      }
    }
  }

  /** A value that means the same as an empty one is empty. */
  lemma EmptyMeaning(e: Env, a: Value, b: Value)
    requires (a.Tree? ==> WellFormed(a.j, 0)) && (b.Tree? ==> WellFormed(b.j, 0))
    requires MeaningOf(e, a) == MeaningOf(e, b)
    ensures IsEmpty(e, Some(a)) ==> IsEmpty(e, Some(b))
  {
    if a == Tree(Null) {
      NullText(b.j);
    }
  }

  /** Two records say the same: audience, amount, and every compared field, filled in or not. */
  ghost predicate Identical(e: Env, a: Record, b: Record) {
    && a.audience == b.audience
    && AmountMeaning(e, a.amountRub) == AmountMeaning(e, b.amountRub)
    && forall f :: !LocalOnly(f) ==> FieldMeaning(e, a.payload, f) == FieldMeaning(e, b.payload, f)
  }

  lemma {:induction false} PayloadDiffsEmpty(e: Env, l: Payload, i: Payload, names: seq<string>)
    ensures PayloadDiffs(e, l, i, names) == [] <==> forall f :: f in names ==> FieldAgrees(e, l, i, f)
  {
    if names != [] {
      PayloadDiffsEmpty(e, l, i, names[1..]);
      assert forall f :: f in names <==> f == names[0] || f in names[1..];
    }
  }

  /**
   The comparison finds nothing exactly when the records are identical. Identity is
   equality of what each record means, so it is reflexive, symmetric and transitive.
   */
  lemma NoDifferences(e: Env, a: Record, b: Record)
    requires PayloadOk(a.payload) && PayloadOk(b.payload)
    ensures Differences(e, a, b) == [] <==> Identical(e, a, b)
  {
    RankingChars();
    var names := FieldNames(a.payload, b.payload);
    SortedElements(CharRank, ComparedFields(a.payload, b.payload));
    PayloadDiffsEmpty(e, a.payload, b.payload, names);
    forall f
      ensures FieldAgrees(e, a.payload, b.payload, f) <==> FieldMeaning(e, a.payload, f) == FieldMeaning(e, b.payload, f)
    {
      FieldAgreesMeans(e, a.payload, b.payload, f);
    }
    forall f | f !in names && !LocalOnly(f)
      ensures FieldMeaning(e, a.payload, f) == FieldMeaning(e, b.payload, f)
    {
      assert f !in ComparedFields(a.payload, b.payload);
    }
  }

  lemma IdenticalIsEquivalence(e: Env, a: Record, b: Record, c: Record)
    requires PayloadOk(a.payload) && PayloadOk(b.payload) && PayloadOk(c.payload)
    ensures Differences(e, a, a) == []
    ensures Differences(e, a, b) == [] ==> Differences(e, b, a) == []
    ensures Differences(e, a, b) == [] && Differences(e, b, c) == [] ==> Differences(e, a, c) == []
  {
    NoDifferences(e, a, a);
    NoDifferences(e, a, b);
    NoDifferences(e, b, a);
    NoDifferences(e, b, c);
    NoDifferences(e, a, c);
  }

  /** The same difference seen from the other side. */
  function SwapDiff(d: FieldDiff): FieldDiff {
    FieldDiff(d.field, d.incoming, d.local)
  }

  function SwapDiffs(ds: seq<FieldDiff>): seq<FieldDiff> {
    if ds == [] then [] else [SwapDiff(ds[0])] + SwapDiffs(ds[1..])
  }

  lemma {:induction false} SwapAppend(a: seq<FieldDiff>, b: seq<FieldDiff>)
    ensures SwapDiffs(a + b) == SwapDiffs(a) + SwapDiffs(b)
  {
    if a == [] {
      assert a + b == b;
    } else {
      AppendTail(a, b);
      SwapAppend(a[1..], b);
    }
  }

  lemma {:induction false} PayloadDiffsSwap(e: Env, l: Payload, i: Payload, names: seq<string>)
    requires PayloadOk(l) && PayloadOk(i)
    ensures PayloadDiffs(e, i, l, names) == SwapDiffs(PayloadDiffs(e, l, i, names))
  {
    if names != [] {
      PayloadDiffsSwap(e, l, i, names[1..]);
      FieldAgreesMeans(e, l, i, names[0]);
      FieldAgreesMeans(e, i, l, names[0]);
      SwapAppend(OfField(e, l, i, names[0]), PayloadDiffs(e, l, i, names[1..]));
      SwapOne(OfField(e, l, i, names[0]), OfField(e, i, l, names[0]));
    }
  }

  lemma SwapOne(a: seq<FieldDiff>, b: seq<FieldDiff>)
    requires |a| == |b| <= 1 && (a != [] ==> b[0] == SwapDiff(a[0]))
    ensures b == SwapDiffs(a)
  {
    if a != [] {
      assert b == [b[0]] && a[1..] == [];
    }
  }

  /** Comparing the other way round finds the same differences, each with its sides exchanged. */
  lemma DifferencesMirror(e: Env, a: Record, b: Record)
    requires PayloadOk(a.payload) && PayloadOk(b.payload)
    ensures Differences(e, b, a) == SwapDiffs(Differences(e, a, b))
  {
    assert ComparedFields(a.payload, b.payload) == ComparedFields(b.payload, a.payload);
    PayloadDiffsSwap(e, a.payload, b.payload, FieldNames(a.payload, b.payload));
    SwapAppend(HeadDiffs(e, a, b), PayloadDiffs(e, a.payload, b.payload, FieldNames(a.payload, b.payload)));
    HeadDiffsSwap(e, a, b);
  }

  lemma HeadDiffsSwap(e: Env, a: Record, b: Record)
    ensures HeadDiffs(e, b, a) == SwapDiffs(HeadDiffs(e, a, b))
  {
    SwapAppend(AudienceDiff(a, b), AmountDiff(e, a, b));
    SwapOne(AudienceDiff(a, b), AudienceDiff(b, a));
    SwapOne(AmountDiff(e, a, b), AmountDiff(e, b, a));
  }
}
