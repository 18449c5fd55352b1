/**
 Records after the way through JSON: every number comes back as its text. Keys and comparisons
 are the same as before exactly as far as floating-point numbers come back with their value.
 */
module Reimport {
  import opened Wrappers
  import opened Json
  import opened CanonicalJson
  import opened MatchKey
  import opened Packages
  import Compare

  /** A payload value as decoding with UseNumber gives it back. */
  function Back(w: World, v: Value): Value {
    match v
    case Int(i) => Tree(Num(w.e.n.itoa(i)))
    case Float(x) => Tree(Num(w.z.float(x)))
    case Tree(_) => v
  }

  function BackPayload(w: World, p: map<string, Value>): map<string, Value> {
    map f | f in p :: Back(w, p[f])
  }

  function BackRecord(w: World, r: Record): Record {
    r.(payload := BackPayload(w, r.payload))
  }

  function BackAll(w: World, rs: seq<Record>): (r: seq<Record>)
    ensures |r| == |rs| && forall i :: 0 <= i < |rs| ==> r[i] == BackRecord(w, rs[i])
  {
    if rs == [] then [] else [BackRecord(w, rs[0])] + BackAll(w, rs[1..])
  }

  /** Integers are written exactly and read back as what they are; floats are written as valid numbers. */
  ghost predicate NumbersOk(w: World) {
    && (forall i: int {:trigger w.e.n.itoa(i)} ::
          var s := w.e.n.itoa(i);
          w.e.n.rat(s) == Some(i as real) && w.e.n.text(i as real) == s && ValidNumber(s))
    && forall x :: ValidNumber(w.z.float(x))
  }

  /** A float in this field, if there is one, is worth what its shortest decimal text is. */
  predicate FieldExact(w: World, p: map<string, Value>, f: string) {
    f in p && p[f].Float? ==> w.e.n.rat(w.z.float(p[f].x)) == Some(p[f].x)
  }

  /** So it is in all the fields that are compared. */
  ghost predicate Exact(w: World, r: Record) {
    forall f :: f in r.payload && !Compare.LocalOnly(f) ==> FieldExact(w, r.payload, f)
  }

  // ----- comparison -----

  lemma FieldKept(w: World, p: map<string, Value>, f: string)
    requires NumbersOk(w)
    ensures Compare.FieldMeaning(w.e, BackPayload(w, p), f) == Compare.FieldMeaning(w.e, p, f) <==> FieldExact(w, p, f)
  {
    if f in p {
      match p[f]
      case Tree(_) =>
      case Int(i) =>
        assert w.e.n.rat(w.e.n.itoa(i)) == Some(i as real);
      case Float(x) =>
        assert ValidNumber(w.z.float(x));
    }
  }

  /** A record is identical to itself come back exactly when its compared floats are exact. */
  lemma IdenticalAfter(w: World, r: Record)
    requires NumbersOk(w)
    ensures Compare.Identical(w.e, r, BackRecord(w, r)) <==> Exact(w, r)
  {
    forall f
      ensures Compare.FieldMeaning(w.e, BackPayload(w, r.payload), f) == Compare.FieldMeaning(w.e, r.payload, f)
         <==> FieldExact(w, r.payload, f)
    {
      FieldKept(w, r.payload, f);
    }
    if Exact(w, r) {
      forall f | !Compare.LocalOnly(f)
        ensures Compare.FieldMeaning(w.e, r.payload, f) == Compare.FieldMeaning(w.e, BackRecord(w, r).payload, f)
      {
        assert f in r.payload ==> FieldExact(w, r.payload, f);
      }
    }
  }

  lemma BackPayloadOk(w: World, p: map<string, Value>)
    requires NumbersOk(w) && Compare.PayloadOk(p)
    ensures Compare.PayloadOk(BackPayload(w, p))
  {
    forall f | f in p
      ensures WellFormed(Back(w, p[f]).j, 0)
    {
      match p[f]
      case Tree(_) =>
      case Int(i) =>
        assert ValidNumber(w.e.n.itoa(i));
      case Float(x) =>
        assert ValidNumber(w.z.float(x));
    }
  }

  // ----- keys -----

  lemma FieldTextKept(w: World, p: map<string, Value>, f: string)
    requires NumbersOk(w) && FieldExact(w, p, f)
    ensures FieldText(w.e, BackPayload(w, p), f) == FieldText(w.e, p, f)
  {
    if f in p && p[f].Int? {
      assert w.e.n.text(p[f].i as real) == w.e.n.itoa(p[f].i);
    }
  }

  ghost predicate Compared(fields: seq<string>) {
    forall i :: 0 <= i < |fields| ==> !Compare.LocalOnly(fields[i])
  }

  /** No part of a key is taken from a field that each system has for itself. */
  ghost predicate KeysCompared(k: Rules) {
    && (forall c :: c in k.fields ==> RowCompared(k.fields[c]))
    && forall c :: c in k.qualifiers ==> Compared(k.qualifiers[c])
  }

  ghost predicate RowCompared(f: KeyFields) {
    && Compared(f.person) && Compared(f.specialty) && Compared(f.subject) && Compared(f.period)
    && !Compare.LocalOnly(f.periodStart) && !Compare.LocalOnly(f.periodEnd)
  }

  predicate Own(f: string) {
    |f| < 3 || (f[|f| - 3] != '_' && f[0] != 'o')
  }

  lemma OwnCompared(fields: seq<string>)
    requires forall i :: 0 <= i < |fields| ==> Own(fields[i])
    ensures Compared(fields)
  {
    forall i | 0 <= i < |fields|
      ensures !Compare.LocalOnly(fields[i])
    {
      var f := fields[i];
      assert |f| >= 3 ==> f[|f| - 3..][0] == f[|f| - 3];
    }
  }

  lemma RowOwn(f: KeyFields)
    requires forall i :: 0 <= i < |f.person| ==> Own(f.person[i])
    requires forall i :: 0 <= i < |f.specialty| ==> Own(f.specialty[i])
    requires forall i :: 0 <= i < |f.subject| ==> Own(f.subject[i])
    requires forall i :: 0 <= i < |f.period| ==> Own(f.period[i])
    requires Own(f.periodStart) && Own(f.periodEnd)
    ensures RowCompared(f)
  {
    OwnCompared(f.person);
    OwnCompared(f.specialty);
    OwnCompared(f.subject);
    OwnCompared(f.period);
    OwnCompared([f.periodStart, f.periodEnd]);
    assert [f.periodStart, f.periodEnd][0] == f.periodStart && [f.periodStart, f.periodEnd][1] == f.periodEnd;
  }

  lemma NamedRowsCompared()
    ensures RowCompared(TEACHER_FIELDS) && RowCompared(OOD_RPD_FIELDS) && RowCompared(TOP_IT_FIELDS)
    ensures RowCompared(IT_CLUB_FIELDS) && RowCompared(TRAINING_FIELDS) && Compared(OOD_RPD_QUALIFIERS)
  {
    RowOwn(TEACHER_FIELDS);
    RowOwn(OOD_RPD_FIELDS);
    RowOwn(TOP_IT_FIELDS);
    RowOwn(IT_CLUB_FIELDS);
    RowOwn(TRAINING_FIELDS);
    OwnCompared(OOD_RPD_QUALIFIERS);
  }

  lemma DatedRowsCompared()
    ensures RowCompared(INTERNSHIP_FIELDS) && RowCompared(CONTENT_FIELDS) && RowCompared(DECISION_FIELDS)
  {
    RowOwn(INTERNSHIP_FIELDS);
    RowOwn(CONTENT_FIELDS);
    RowOwn(DECISION_FIELDS);
  }

  /** The rules of the program take keys from compared fields only. */
  lemma StandardKeysCompared()
    ensures KeysCompared(STANDARD_RULES)
  {
    NamedRowsCompared();
    DatedRowsCompared();
  }

  lemma ComparedKept(w: World, r: Record, f: string)
    requires NumbersOk(w) && Exact(w, r) && !Compare.LocalOnly(f)
    ensures FieldText(w.e, BackPayload(w, r.payload), f) == FieldText(w.e, r.payload, f)
  {
    assert f in r.payload ==> FieldExact(w, r.payload, f);
    FieldTextKept(w, r.payload, f);
  }

  lemma {:induction false} FirstTextKept(w: World, r: Record, fields: seq<string>)
    requires NumbersOk(w) && Exact(w, r) && Compared(fields)
    ensures FirstText(w.e, BackPayload(w, r.payload), fields) == FirstText(w.e, r.payload, fields)
  {
    if fields != [] {
      ComparedKept(w, r, fields[0]);
      FirstTextKept(w, r, fields[1..]);
    }
  }

  lemma {:induction false} QualifiedKept(w: World, r: Record, subject: string, qualifiers: seq<string>)
    requires NumbersOk(w) && Exact(w, r) && Compared(qualifiers)
    ensures Qualified(w.e, BackPayload(w, r.payload), subject, qualifiers) == Qualified(w.e, r.payload, subject, qualifiers)
    decreases |qualifiers|
  {
    if qualifiers != [] {
      ComparedKept(w, r, qualifiers[0]);
      QualifiedKept(w, r, subject + " " + Folded(w.e.u, FieldText(w.e, r.payload, qualifiers[0])), qualifiers[1..]);
    }
  }

  lemma PeriodKept(w: World, r: Record, f: KeyFields)
    requires NumbersOk(w) && Exact(w, r) && RowCompared(f)
    ensures Period(w.e, BackPayload(w, r.payload), f) == Period(w.e, r.payload, f)
  {
    ComparedKept(w, r, f.periodStart);
    ComparedKept(w, r, f.periodEnd);
    FirstTextKept(w, r, f.period);
  }

  /** Exact records keep their keys. */
  lemma KeyKept(w: World, r: Record)
    requires NumbersOk(w) && KeysCompared(w.e.k) && Exact(w, r)
    ensures KeyOf(w.e, BackRecord(w, r)) == KeyOf(w.e, r)
  {
    if r.category in w.e.k.fields {
      var f := w.e.k.fields[r.category];
      FirstTextKept(w, r, f.subject);
      FirstTextKept(w, r, f.specialty);
      FirstTextKept(w, r, f.person);
      assert Compared(Qualifiers(w.e.k, r.category));
      QualifiedKept(w, r, Folded(w.e.u, FirstText(w.e, r.payload, f.subject)), Qualifiers(w.e.k, r.category));
      PeriodKept(w, r, f);
    }
  }

  /** One tenth as a float64 is not one tenth: a record that holds it differs from itself come back. */
  lemma TenthIsNotKept(w: World, r: Record, f: string)
    requires NumbersOk(w) && f in r.payload && !Compare.LocalOnly(f)
    requires r.payload[f] == Float(0.1000000000000000055511151231257827021181583404541015625)
    requires w.z.float(0.1000000000000000055511151231257827021181583404541015625) == "0.1" && w.e.n.rat("0.1") == Some(0.1)
    ensures !Compare.Identical(w.e, r, BackRecord(w, r))
  {
    assert !FieldExact(w, r.payload, f);
    IdenticalAfter(w, r);
  }
}
