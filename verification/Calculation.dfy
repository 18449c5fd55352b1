/**
 Amounts by the methodology: the direct formula for each kind of activity, and the
 breakdown of the same amount into an expression over named inputs.
 */
module Calculation {
  import opened Wrappers
  import opened Formula
  import opened MatchKey

  type Payload = map<string, Value>
  type Rates = map<string, real>

  datatype CalcError = Rejected | UnknownFormula | NotANumber | NoRate | NegativeAmount | AmountTooLarge

  datatype Activity =
    Teachers | Practice | OodRpd | TopIt | MincDecision | ItClubs | TeacherTraining | EduContent

  function ActivityOf(code: string): Option<Activity> {
    if code == "teachers" then Some(Teachers)
    else if code == "internship" || code == "employment_practice" then Some(Practice)
    else if code == "ood_rpd" then Some(OodRpd)
    else if code == "top_it" then Some(TopIt)
    else if code == "minc_decision" then Some(MincDecision)
    else if code == "it_clubs" then Some(ItClubs)
    else if code == "teacher_training" then Some(TeacherTraining)
    else if code == "edu_content" then Some(EduContent)
    else None
  }

  function TextOf(p: Payload, key: string): string {
    if key in p && p[key].Tree? && p[key].j.Str? then p[key].j.s else ""
  }

  function HourlyRate(audience: string): string {
    if audience == "kolledj" then "teachers.academic_hour.kolledj" else "teachers.academic_hour.vuz"
  }

  function DocumentRate(p: Payload): string {
    "ood_rpd." + TextOf(p, "doc_type") + "." + TextOf(p, "level") + "." + TextOf(p, "activity_type")
  }

  function AmountKey(p: Payload): string {
    if "actual_spent_amount_rub" in p then "actual_spent_amount_rub" else "cofinancing_amount_rub"
  }

  // ----- numbers and rates -----

  /** A number of the payload for the amount: text is not taken for a number. */
  function NumberAt(e: Env, p: Payload, key: string): Option<real> {
    if key !in p then None
    else match p[key]
      case Tree(Num(t)) => e.n.rat(t)
      case Float(x) => e.n.rat(e.n.ftoa(x))
      case Int(i) => e.n.rat(e.n.itoa(i))
      case _ => None
  }

  /** A number of the payload for the breakdown: here trimmed text is taken too. */
  function RatValue(e: Env, p: Payload, key: string): Option<real> {
    if key in p && p[key].Tree? && p[key].j.Str? then e.n.rat(Trim(e.u, p[key].j.s)) else NumberAt(e, p, key)
  }

  function OrZero(x: Option<real>): real {
    if x.Some? then x.value else 0.0
  }

  function RateAt(rates: Rates, code: string): Option<real> {
    if code in rates then Some(rates[code]) else None
  }

  function Times(x: real, y: real): real {
    Combine(Product, x, y)
  }

  // ----- the methodology -----

  function FieldsOf(a: Activity, p: Payload): seq<string> {
    match a
    case Teachers => ["academic_hours"]
    case Practice => ["student_load_hours_per_month", "mentor_load_hours_per_month", "duration_months"]
    case OodRpd => []
    case TopIt => [AmountKey(p)]
    case MincDecision => ["amount_manual"]
    case ItClubs => ["academic_hours", "developed_programs_count"]
    case TeacherTraining => ["developed_programs_count", "academic_hours_per_teacher", "trained_teachers_count"]
    case EduContent => ["student_platform_months", "teacher_platform_months"]
  }

  function RatesOf(a: Activity, audience: string, p: Payload): seq<string> {
    match a
    case Teachers => [HourlyRate(audience)]
    case Practice => ["internship.student_hour", "internship.mentor_hour"]
    case OodRpd => [DocumentRate(p)]
    case TopIt => []
    case MincDecision => []
    case ItClubs => ["it_clubs.academic_hour", "it_clubs.program_development"]
    case TeacherTraining => ["teacher_training.program_development", "teacher_training.academic_hour"]
    case EduContent => ["edu_content.student_platform_month", "edu_content.teacher_platform_month"]
  }

  /** The rubles an activity comes to, over its fields and rates in the order listed above. */
  function Rubles(a: Activity, v: seq<real>, r: seq<real>): real
    requires Arity(a, |v|, |r|)
  {
    match a
    case Teachers => Times(v[0], r[0])
    case Practice => Times(Times(v[0], r[0]) + Times(v[1], r[1]), v[2])
    case OodRpd => r[0]
    case TopIt => v[0]
    case MincDecision => v[0]
    case ItClubs => Times(v[0], r[0]) + Times(v[1], r[1])
    case TeacherTraining => Times(v[0], r[0]) + Times(Times(v[1], v[2]), r[1])
    case EduContent => Times(v[0], r[0]) + Times(v[1], r[1])
  }

  predicate Arity(a: Activity, fields: nat, rates: nat) {
    match a
    case Teachers => fields == 1 && rates == 1
    case Practice => fields == 3 && rates == 2
    case OodRpd => fields == 0 && rates == 1
    case TopIt => fields == 1 && rates == 0
    case MincDecision => fields == 1 && rates == 0
    case ItClubs => fields == 2 && rates == 2
    case TeacherTraining => fields == 3 && rates == 2
    case EduContent => fields == 2 && rates == 2
  }

  function Looked(f: string -> Option<real>, keys: seq<string>): (r: seq<real>)
    ensures |r| == |keys| && forall i :: 0 <= i < |keys| ==> r[i] == OrZero(f(keys[i]))
  {
    if keys == [] then [] else [OrZero(f(keys[0]))] + Looked(f, keys[1..])
  }

  predicate AllFound(f: string -> Option<real>, keys: seq<string>) {
    forall i :: 0 <= i < |keys| ==> f(keys[i]).Some?
  }

  const MAX_INT64 := 0x7FFF_FFFF_FFFF_FFFF
  const MAX_AMOUNT := 9_999_999_999_999_999

  /** Rubles to whole kopecks, half a kopeck upwards. */
  function ToKopecks(r: real): Result<int, CalcError> {
    if r < 0.0 then Err(NegativeAmount)
    else
      var whole := (r * 100.0).Floor;
      var rest := r * 100.0 - whole as real;
      var k := if rest * 2.0 >= 1.0 then whole + 1 else whole;
      if k > MAX_INT64 then Err(AmountTooLarge) else Ok(k)
  }

  /** Within half a kopeck of the exact sum, and the upper one of two that are equally near. */
  lemma KopecksAreNearest(r: real, k: int)
    requires 0 <= k <= MAX_INT64
    ensures ToKopecks(r) == Ok(k) <==> r >= 0.0 && k as real - 0.5 <= r * 100.0 < k as real + 0.5
  {
    if r >= 0.0 {
      var x := r * 100.0;
      if k as real - 0.5 <= x < k as real + 0.5 {
        assert x.Floor == k || x.Floor == k - 1;
      }
    }
  }

  function FieldLookup(e: Env, p: Payload): string -> Option<real> {
    key => NumberAt(e, p, key)
  }

  function RateLookup(rates: Rates): string -> Option<real> {
    code => RateAt(rates, code)
  }

  /** The exact sum by the methodology. */
  function ExactRubles(e: Env, rates: Rates, a: Activity, audience: string, p: Payload): real {
    Rubles(a, Looked(FieldLookup(e, p), FieldsOf(a, p)), Looked(RateLookup(rates), RatesOf(a, audience, p)))
  }

  /** The amount; accepted says whether the checks of the approximate calculation passed. */
  function AmountSpec(e: Env, rates: Rates, accepted: bool, code: string, audience: string, p: Payload)
    : Result<int, CalcError>
  {
    if !accepted then Err(Rejected)
    else match ActivityOf(code)
      case None => Err(UnknownFormula)
      case Some(a) =>
        if !AllFound(FieldLookup(e, p), FieldsOf(a, p)) then Err(NotANumber)
        else if !AllFound(RateLookup(rates), RatesOf(a, audience, p)) then Err(NoRate)
        else match ToKopecks(ExactRubles(e, rates, a, audience, p))
          case Err(x) => Err(x)
          case Ok(k) => if k > MAX_AMOUNT then Err(AmountTooLarge) else Ok(k)
  }

  /** The closures of the exact calculation: each lookup that fails is noted and counts as zero. */
  class Terms {
    const e: Env
    const p: Payload
    const rates: Rates
    var parseErr: bool
    var rateErr: bool

    constructor (e: Env, p: Payload, rates: Rates)
      ensures this.e == e && this.p == p && this.rates == rates && !parseErr && !rateErr
    {
      this.e, this.p, this.rates, parseErr, rateErr := e, p, rates, false, false;
    }

    method N(key: string) returns (x: real)
      modifies this
      ensures x == OrZero(NumberAt(e, p, key)) && rateErr == old(rateErr)
      ensures parseErr <==> old(parseErr) || NumberAt(e, p, key).None?
    {
      var r := NumberAt(e, p, key);
      if r.None? {
        parseErr := true;
        return 0.0;
      }
      x := r.value;
    }

    method Rate(code: string) returns (x: real)
      modifies this
      ensures x == OrZero(RateAt(rates, code)) && parseErr == old(parseErr)
      ensures rateErr <==> old(rateErr) || RateAt(rates, code).None?
    {
      if code !in rates {
        rateErr := true;
        return 0.0;
      }
      x := rates[code];
    }

    ghost predicate Noted(fields: seq<string>, codes: seq<string>)
      reads this
    {
      && (parseErr <==> exists i :: 0 <= i < |fields| && NumberAt(e, p, fields[i]).None?)
      && (rateErr <==> exists i :: 0 <= i < |codes| && RateAt(rates, codes[i]).None?)
    }

    /** A sum of two products of a field and a rate. */
    method TwoProducts(f: string, c: string, g: string, d: string) returns (x: real)
      requires !parseErr && !rateErr
      modifies this
      ensures x == Times(OrZero(NumberAt(e, p, f)), OrZero(RateAt(rates, c)))
                 + Times(OrZero(NumberAt(e, p, g)), OrZero(RateAt(rates, d)))
      ensures parseErr <==> NumberAt(e, p, f).None? || NumberAt(e, p, g).None?
      ensures rateErr <==> RateAt(rates, c).None? || RateAt(rates, d).None?
    {
      var a := N(f);
      var b := Rate(c);
      var k := N(g);
      var l := Rate(d);
      x := Times(a, b) + Times(k, l);
    }

    method Total(a: Activity, audience: string) returns (x: real)
      requires !parseErr && !rateErr
      modifies this
      ensures x == ExactRubles(e, rates, a, audience, p)
      ensures Noted(FieldsOf(a, p), RatesOf(a, audience, p))
    {
      ghost var fields, codes := FieldsOf(a, p), RatesOf(a, audience, p);
      match a
      case Teachers =>
        var f := N("academic_hours");
        var r := Rate(HourlyRate(audience));
        x := Times(f, r);
        assert fields[0] == "academic_hours" && codes[0] == HourlyRate(audience);
      case Practice =>
        x := PracticeTotal(audience);
      case OodRpd =>
        x := Rate(DocumentRate(p));
        assert codes[0] == DocumentRate(p);
      case TopIt =>
        x := N(AmountKey(p));
        assert fields[0] == AmountKey(p);
      case MincDecision =>
        x := N("amount_manual");
        assert fields[0] == "amount_manual";
      case ItClubs =>
        x := TwoProducts("academic_hours", "it_clubs.academic_hour", "developed_programs_count", "it_clubs.program_development");
        assert fields[0] == "academic_hours" && fields[1] == "developed_programs_count";
        assert codes[0] == "it_clubs.academic_hour" && codes[1] == "it_clubs.program_development";
      case TeacherTraining =>
        x := TrainingTotal(audience);
      case EduContent =>
        x := TwoProducts("student_platform_months", "edu_content.student_platform_month",
                         "teacher_platform_months", "edu_content.teacher_platform_month");
        assert fields[0] == "student_platform_months" && fields[1] == "teacher_platform_months";
        assert codes[0] == "edu_content.student_platform_month" && codes[1] == "edu_content.teacher_platform_month";
    }

    method PracticeTotal(audience: string) returns (x: real)
      requires !parseErr && !rateErr
      modifies this
      ensures x == ExactRubles(e, rates, Practice, audience, p)
      ensures Noted(FieldsOf(Practice, p), RatesOf(Practice, audience, p))
    {
      ghost var fields, codes := FieldsOf(Practice, p), RatesOf(Practice, audience, p);
      assert fields[0] == "student_load_hours_per_month" && fields[1] == "mentor_load_hours_per_month";
      assert fields[2] == "duration_months";
      assert codes[0] == "internship.student_hour" && codes[1] == "internship.mentor_hour";
      var load := TwoProducts("student_load_hours_per_month", "internship.student_hour",
                              "mentor_load_hours_per_month", "internship.mentor_hour");
      var months := N("duration_months");
      x := Times(load, months);
    }

    method TrainingTotal(audience: string) returns (x: real)
      requires !parseErr && !rateErr
      modifies this
      ensures x == ExactRubles(e, rates, TeacherTraining, audience, p)
      ensures Noted(FieldsOf(TeacherTraining, p), RatesOf(TeacherTraining, audience, p))
    {
      ghost var fields, codes := FieldsOf(TeacherTraining, p), RatesOf(TeacherTraining, audience, p);
      assert fields[0] == "developed_programs_count" && fields[1] == "academic_hours_per_teacher";
      assert fields[2] == "trained_teachers_count";
      assert codes[0] == "teacher_training.program_development" && codes[1] == "teacher_training.academic_hour";
      var n := N("developed_programs_count");
      var development := Rate("teacher_training.program_development");
      var hours := N("academic_hours_per_teacher");
      var teachers := N("trained_teachers_count");
      var hourly := Rate("teacher_training.academic_hour");
      x := Times(n, development) + Times(Times(hours, teachers), hourly);
    }
  }

  /** The amount that is stored: exact until it is rounded once. */
  method CalculateAmountWith(e: Env, rates: Rates, accepted: bool, code: string, audience: string, p: Payload)
    returns (r: Result<int, CalcError>)
    ensures r == AmountSpec(e, rates, accepted, code, audience, p)
  {
    if !accepted {
      return Err(Rejected);
    }
    var activity := ActivityOf(code);
    if activity.None? {
      return Err(UnknownFormula);
    }
    var t := new Terms(e, p, rates);
    var sum := t.Total(activity.value, audience);
    if t.parseErr {
      return Err(NotANumber);
    }
    if t.rateErr {
      return Err(NoRate);
    }
    r := ToKopecks(sum);
    if r.Ok? && r.value > MAX_AMOUNT {
      r := Err(AmountTooLarge);
    }
  }
}
