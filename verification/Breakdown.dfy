/**
 The breakdown of an amount: a tree over numbered inputs, built by closures that append an
 input at each call. It exists exactly when the amount does, and evaluates to the same sum.
 */
module Breakdown {
  import opened Wrappers
  import opened Formula
  import opened MatchKey
  import opened Calculation

  /** A factor: a number of the payload, or a rate when the rate code is not empty. */
  datatype Input = Input(key: string, rateCode: string, value: real)

  datatype Breakdown = Breakdown(inputs: seq<Input>, root: Node, amount: int)

  function Values(inputs: seq<Input>): (r: seq<real>)
    ensures |r| == |inputs| && forall i :: 0 <= i < |inputs| ==> r[i] == inputs[i].value
  {
    if inputs == [] then [] else [inputs[0].value] + Values(inputs[1..])
  }

  function Leaves(n: Node): seq<nat>
    decreases n, 1, 0
  {
    match n
    case Leaf(i) => [i]
    case Branch(_, _) => LeavesFrom(n, 0)
  }

  function LeavesFrom(n: Node, k: nat): seq<nat>
    requires n.Branch? && k <= |n.kids|
    decreases n, 0, |n.kids| - k
  {
    if k == |n.kids| then [] else Leaves(n.kids[k]) + LeavesFrom(n, k + 1)
  }

  function Range(a: nat, b: nat): (r: seq<nat>)
    requires a <= b
    ensures |r| == b - a && forall i :: 0 <= i < |r| ==> r[i] == a + i
  {
    seq(b - a, i requires 0 <= i < b - a => a + i)
  }

  /** The tree is over the inputs from a to b, each once and in order, and has the value x. */
  ghost predicate Means(values: seq<real>, n: Node, a: nat, b: nat, x: real) {
    && InRange(n, |values|) && NonEmpty(n) && a <= b <= |values|
    && Leaves(n) == Range(a, b) && Eval(values, n) == x
  }

  lemma {:induction false} EvalExtends(values: seq<real>, more: seq<real>, n: Node)
    requires InRange(n, |values|)
    ensures InRange(n, |values + more|) && Eval(values + more, n) == Eval(values, n)
    decreases n, 1, 0
  {
    if n.Branch? {
      forall k | 0 <= k < |n.kids|
        ensures InRange(n.kids[k], |values + more|)
      {
        EvalExtends(values, more, n.kids[k]);
      }
      EvalFromExtends(values, more, n, 0);
    }
  }

  lemma {:induction false} EvalFromExtends(values: seq<real>, more: seq<real>, n: Node, k: nat)
    requires n.Branch? && InRange(n, |values|) && InRange(n, |values + more|) && k <= |n.kids|
    ensures EvalFrom(values + more, n, k) == EvalFrom(values, n, k)
    decreases n, 0, |n.kids| - k
  {
    if k < |n.kids| {
      EvalExtends(values, more, n.kids[k]);
      EvalFromExtends(values, more, n, k + 1);
    }
  }

  lemma MeansExtends(values: seq<real>, more: seq<real>, n: Node, a: nat, b: nat, x: real)
    requires Means(values, n, a, b, x)
    ensures Means(values + more, n, a, b, x)
  {
    EvalExtends(values, more, n);
  }

  lemma RangeJoin(a: nat, b: nat, c: nat)
    requires a <= b <= c
    ensures Range(a, b) + Range(b, c) == Range(a, c)
  {
  }

  lemma PairMeans(values: seq<real>, op: Op, n: Node, m: Node, a: nat, b: nat, c: nat, x: real, y: real)
    requires Means(values, n, a, b, x) && Means(values, m, b, c, y)
    ensures Means(values, Branch(op, [n, m]), a, c, Combine(op, x, y))
  {
    var t := Branch(op, [n, m]);
    RangeJoin(a, b, c);
    assert EvalFrom(values, t, 2) == Unit(op) && LeavesFrom(t, 2) == [];
    assert EvalFrom(values, t, 1) == y && LeavesFrom(t, 1) == Leaves(m);
    assert EvalFrom(values, t, 0) == Combine(op, x, y);
  }

  lemma TripleMeans(
    values: seq<real>, op: Op, n: Node, m: Node, l: Node, a: nat, b: nat, c: nat, d: nat, x: real, y: real, z: real)
    requires Means(values, n, a, b, x) && Means(values, m, b, c, y) && Means(values, l, c, d, z)
    ensures Means(values, Branch(op, [n, m, l]), a, d, Combine(op, Combine(op, x, y), z))
  {
    var t := Branch(op, [n, m, l]);
    RangeJoin(b, c, d);
    RangeJoin(a, b, d);
    assert EvalFrom(values, t, 3) == Unit(op) && LeavesFrom(t, 3) == [];
    assert EvalFrom(values, t, 2) == z && LeavesFrom(t, 2) == Leaves(l);
    assert EvalFrom(values, t, 1) == Combine(op, y, z) && LeavesFrom(t, 1) == Range(b, d);
    CombineAssoc(op, x, y, z);
  }

  /** The closures of the breakdown: each call appends an input; the first failure is kept. */
  class Builder {
    const e: Env
    const p: Payload
    const rates: Rates
    var inputs: seq<Input>
    var failed: Option<CalcError>

    constructor (e: Env, p: Payload, rates: Rates)
      ensures this.e == e && this.p == p && this.rates == rates && inputs == [] && failed == None
    {
      this.e, this.p, this.rates, inputs, failed := e, p, rates, [], None;
    }

    /** What an input stands for. */
    ghost predicate InputOk(i: Input) {
      if i.rateCode == "" then NumberAt(e, p, i.key) == Some(i.value) else RateAt(rates, i.rateCode) == Some(i.value)
    }

    ghost predicate AllOk()
      reads this
    {
      failed.None? && forall k :: 0 <= k < |inputs| ==> InputOk(inputs[k])
    }

    method Field(key: string) returns (n: Node)
      modifies this
      ensures inputs == old(inputs) + [Input(key, "", OrZero(RatValue(e, p, key)))]
      ensures n == Leaf(|old(inputs)|)
      ensures failed == if old(failed).None? && RatValue(e, p, key).None? then Some(NotANumber) else old(failed)
    {
      var value := RatValue(e, p, key);
      if value.None? && failed.None? {
        failed := Some(NotANumber);
      }
      inputs := inputs + [Input(key, "", OrZero(value))];
      n := Leaf(|inputs| - 1);
    }

    method Rate(code: string) returns (n: Node)
      modifies this
      ensures inputs == old(inputs) + [Input("", code, OrZero(RateAt(rates, code)))]
      ensures n == Leaf(|old(inputs)|)
      ensures failed == if old(failed).None? && RateAt(rates, code).None? then Some(NoRate) else old(failed)
    {
      var value := RateAt(rates, code);
      if value.None? && failed.None? {
        failed := Some(NoRate);
      }
      inputs := inputs + [Input("", code, OrZero(value))];
      n := Leaf(|inputs| - 1);
    }

    /** A field that the amount could be calculated from. */
    method KnownField(key: string) returns (n: Node)
      requires AllOk() && NumberAt(e, p, key).Some?
      modifies this
      ensures AllOk() && old(inputs) <= inputs && |inputs| == |old(inputs)| + 1
      ensures Means(Values(inputs), n, |old(inputs)|, |inputs|, OrZero(NumberAt(e, p, key)))
    {
      n := Field(key);
      assert Leaves(n) == Range(|old(inputs)|, |inputs|);
    }

    method KnownRate(code: string) returns (n: Node)
      requires AllOk() && RateAt(rates, code).Some? && code != ""
      modifies this
      ensures AllOk() && old(inputs) <= inputs && |inputs| == |old(inputs)| + 1
      ensures Means(Values(inputs), n, |old(inputs)|, |inputs|, OrZero(RateAt(rates, code)))
    {
      n := Rate(code);
      assert Leaves(n) == Range(|old(inputs)|, |inputs|);
    }

    lemma StillMeans(before: seq<Input>, n: Node, a: nat, b: nat, x: real)
      requires before <= inputs && Means(Values(before), n, a, b, x)
      ensures Means(Values(inputs), n, a, b, x)
    {
      assert Values(inputs) == Values(before) + Values(inputs)[|before|..];
      MeansExtends(Values(before), Values(inputs)[|before|..], n, a, b, x);
    }

    /** product(field(key), rate(code)) */
    method Charge(key: string, code: string) returns (n: Node)
      requires AllOk() && NumberAt(e, p, key).Some? && RateAt(rates, code).Some? && code != ""
      modifies this
      ensures AllOk() && old(inputs) <= inputs && |inputs| == |old(inputs)| + 2
      ensures Means(Values(inputs), n, |old(inputs)|, |inputs|,
                    Times(OrZero(NumberAt(e, p, key)), OrZero(RateAt(rates, code))))
    {
      var f := KnownField(key);
      ghost var before := inputs;
      var r := KnownRate(code);
      StillMeans(before, f, |old(inputs)|, |before|, OrZero(NumberAt(e, p, key)));
      PairMeans(Values(inputs), Product, f, r, |old(inputs)|, |before|, |inputs|,
                OrZero(NumberAt(e, p, key)), OrZero(RateAt(rates, code)));
      n := Branch(Product, [f, r]);
    }

    /** sum(product(field(f), rate(c)), product(field(g), rate(d))) */
    method TwoCharges(f: string, c: string, g: string, d: string) returns (n: Node)
      requires AllOk() && NumberAt(e, p, f).Some? && RateAt(rates, c).Some? && c != ""
      requires NumberAt(e, p, g).Some? && RateAt(rates, d).Some? && d != ""
      modifies this
      ensures AllOk() && old(inputs) <= inputs && |inputs| == |old(inputs)| + 4
      ensures Means(Values(inputs), n, |old(inputs)|, |inputs|,
                    Times(OrZero(NumberAt(e, p, f)), OrZero(RateAt(rates, c)))
                    + Times(OrZero(NumberAt(e, p, g)), OrZero(RateAt(rates, d))))
    {
      var x := Charge(f, c);
      ghost var before := inputs;
      var y := Charge(g, d);
      ghost var a, b := Times(OrZero(NumberAt(e, p, f)), OrZero(RateAt(rates, c))),
        Times(OrZero(NumberAt(e, p, g)), OrZero(RateAt(rates, d)));
      StillMeans(before, x, |old(inputs)|, |before|, a);
      PairMeans(Values(inputs), Sum, x, y, |old(inputs)|, |before|, |inputs|, a, b);
      n := Branch(Sum, [x, y]);
    }

    method PracticeRoot() returns (n: Node)
      requires inputs == [] && AllOk() && Found(Practice, "")
      modifies this
      ensures AllOk() && Means(Values(inputs), n, 0, |inputs|, ExactRubles(e, rates, Practice, "", p))
    {
      FoundAt(Practice, "");
      ghost var fields, codes := FieldsOf(Practice, p), RatesOf(Practice, "", p);
      assert fields[0] == "student_load_hours_per_month" && fields[1] == "mentor_load_hours_per_month";
      assert fields[2] == "duration_months";
      assert codes[0] == "internship.student_hour" && codes[1] == "internship.mentor_hour";
      var s := TwoCharges("student_load_hours_per_month", "internship.student_hour",
                          "mentor_load_hours_per_month", "internship.mentor_hour");
      ghost var before := inputs;
      ghost var x := Eval(Values(inputs), s);
      var months := KnownField("duration_months");
      StillMeans(before, s, 0, |before|, x);
      PairMeans(Values(inputs), Product, s, months, 0, |before|, |inputs|, x, OrZero(NumberAt(e, p, "duration_months")));
      n := Branch(Product, [s, months]);
    }

    method TrainingRoot() returns (n: Node)
      requires inputs == [] && AllOk() && Found(TeacherTraining, "")
      modifies this
      ensures AllOk() && Means(Values(inputs), n, 0, |inputs|, ExactRubles(e, rates, TeacherTraining, "", p))
    {
      FoundAt(TeacherTraining, "");
      ghost var fields, codes := FieldsOf(TeacherTraining, p), RatesOf(TeacherTraining, "", p);
      assert fields[0] == "developed_programs_count" && fields[1] == "academic_hours_per_teacher";
      assert fields[2] == "trained_teachers_count";
      assert codes[0] == "teacher_training.program_development" && codes[1] == "teacher_training.academic_hour";
      var x := Charge("developed_programs_count", "teacher_training.program_development");
      ghost var before := inputs;
      ghost var a := Eval(Values(inputs), x);
      var y := TrainingHours();
      StillMeans(before, x, 0, |before|, a);
      PairMeans(Values(inputs), Sum, x, y, 0, |before|, |inputs|, a, Eval(Values(inputs), y));
      n := Branch(Sum, [x, y]);
    }

    /** product(field(hours), field(teachers), rate(hour)) */
    method TrainingHours() returns (n: Node)
      requires AllOk() && NumberAt(e, p, "academic_hours_per_teacher").Some?
      requires NumberAt(e, p, "trained_teachers_count").Some? && RateAt(rates, "teacher_training.academic_hour").Some?
      modifies this
      ensures AllOk() && old(inputs) <= inputs && |inputs| == |old(inputs)| + 3
      ensures Means(Values(inputs), n, |old(inputs)|, |inputs|,
                    Times(Times(OrZero(NumberAt(e, p, "academic_hours_per_teacher")),
                                OrZero(NumberAt(e, p, "trained_teachers_count"))),
                          OrZero(RateAt(rates, "teacher_training.academic_hour"))))
    {
      var hours := KnownField("academic_hours_per_teacher");
      ghost var one := inputs;
      var teachers := KnownField("trained_teachers_count");
      ghost var two := inputs;
      var hourly := KnownRate("teacher_training.academic_hour");
      ghost var x := OrZero(NumberAt(e, p, "academic_hours_per_teacher"));
      ghost var y := OrZero(NumberAt(e, p, "trained_teachers_count"));
      StillMeans(one, hours, |old(inputs)|, |one|, x);
      StillMeans(two, teachers, |one|, |two|, y);
      TripleMeans(Values(inputs), Product, hours, teachers, hourly, |old(inputs)|, |one|, |two|, |inputs|,
                  x, y, OrZero(RateAt(rates, "teacher_training.academic_hour")));
      n := Branch(Product, [hours, teachers, hourly]);
    }

    ghost predicate Found(a: Activity, audience: string) {
      AllFound(FieldLookup(e, p), FieldsOf(a, p)) && AllFound(RateLookup(rates), RatesOf(a, audience, p))
    }

    lemma FoundAt(a: Activity, audience: string)
      requires Found(a, audience)
      ensures forall k :: 0 <= k < |FieldsOf(a, p)| ==> NumberAt(e, p, FieldsOf(a, p)[k]).Some?
      ensures forall k :: 0 <= k < |RatesOf(a, audience, p)| ==> RateAt(rates, RatesOf(a, audience, p)[k]).Some?
    {
      forall k | 0 <= k < |FieldsOf(a, p)|
        ensures NumberAt(e, p, FieldsOf(a, p)[k]).Some?
      {
        assert FieldLookup(e, p)(FieldsOf(a, p)[k]).Some?;
      }
      forall k | 0 <= k < |RatesOf(a, audience, p)|
        ensures RateAt(rates, RatesOf(a, audience, p)[k]).Some?
      {
        assert RateLookup(rates)(RatesOf(a, audience, p)[k]).Some?;
      }
    }

    /** The expression of an activity whose amount can be calculated: over all its inputs, and worth the exact sum. */
    method Root(a: Activity, audience: string) returns (n: Node)
      requires inputs == [] && AllOk() && Found(a, audience)
      modifies this
      ensures AllOk() && Means(Values(inputs), n, 0, |inputs|, ExactRubles(e, rates, a, audience, p))
    {
      FoundAt(a, audience);
      ghost var fields, codes := FieldsOf(a, p), RatesOf(a, audience, p);
      match a
      case Teachers =>
        assert fields[0] == "academic_hours" && codes[0] == HourlyRate(audience);
        n := Charge("academic_hours", HourlyRate(audience));
      case Practice =>
        n := PracticeRoot();
      case OodRpd =>
        assert codes[0] == DocumentRate(p);
        n := KnownRate(DocumentRate(p));
      case TopIt =>
        assert fields[0] == AmountKey(p);
        n := KnownField(AmountKey(p));
      case MincDecision =>
        assert fields[0] == "amount_manual";
        n := KnownField("amount_manual");
      case ItClubs =>
        assert fields[0] == "academic_hours" && fields[1] == "developed_programs_count";
        assert codes[0] == "it_clubs.academic_hour" && codes[1] == "it_clubs.program_development";
        n := TwoCharges("academic_hours", "it_clubs.academic_hour", "developed_programs_count", "it_clubs.program_development");
      case TeacherTraining =>
        n := TrainingRoot();
      case EduContent =>
        assert fields[0] == "student_platform_months" && fields[1] == "teacher_platform_months";
        assert codes[0] == "edu_content.student_platform_month" && codes[1] == "edu_content.teacher_platform_month";
        n := TwoCharges("student_platform_months", "edu_content.student_platform_month",
                        "teacher_platform_months", "edu_content.teacher_platform_month");
    }
  }

  /** A breakdown that can stand for its amount in a spreadsheet. */
  ghost predicate Faithful(e: Env, rates: Rates, p: Payload, b: Breakdown) {
    && InRange(b.root, |b.inputs|) && NonEmpty(b.root)
    && Leaves(b.root) == Range(0, |b.inputs|)
    && ToKopecks(Eval(Values(b.inputs), b.root)) == Ok(b.amount)
    && forall i :: 0 <= i < |b.inputs| ==>
         if b.inputs[i].rateCode == "" then NumberAt(e, p, b.inputs[i].key) == Some(b.inputs[i].value)
         else RateAt(rates, b.inputs[i].rateCode) == Some(b.inputs[i].value)
  }

  /** A breakdown is built exactly when the amount can be calculated, and it is faithful to that amount. */
  method BreakdownWith(e: Env, rates: Rates, accepted: bool, code: string, audience: string, p: Payload)
    returns (r: Result<Breakdown, CalcError>)
    ensures match AmountSpec(e, rates, accepted, code, audience, p)
      case Err(x) => r == Err(x)
      case Ok(amount) => r.Ok? && r.value.amount == amount && Faithful(e, rates, p, r.value)
  {
    var amount := CalculateAmountWith(e, rates, accepted, code, audience, p);
    if amount.Err? {
      return Err(amount.error);
    }
    var b := new Builder(e, p, rates);
    var root := b.Root(ActivityOf(code).value, audience);
    r := match b.failed
      case Some(x) => Err(x)
      case None => Ok(Breakdown(b.inputs, root, amount.value));
  }

  /** The formula text of a faithful breakdown, read by a spreadsheet, rounds to the amount. */
  lemma ExcelGivesAmount(
    e: Env, rates: Rates, p: Payload, b: Breakdown, ref: nat -> string, cell: string -> real)
    requires Faithful(e, rates, p, b) && RefsOk(ref, cell, Values(b.inputs))
    ensures var x := ReadFormula(cell, Excel(ref, b.root));
      x.Some? && ToKopecks(x.value) == Ok(b.amount)
  {
    ExcelMeansEval(ref, cell, Values(b.inputs), b.root);
  }
}
