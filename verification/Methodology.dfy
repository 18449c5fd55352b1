/** The amounts of the methodology, kind by kind, over the fields and rates by name; and when there is one. */
module Methodology {
  import opened Wrappers
  import opened Json
  import opened MatchKey
  import opened Calculation

  /** The field holds a number: JSON, a float by its shortest text, or an integer; text is not a number here. */
  predicate IsNumber(e: Env, p: Payload, key: string, x: real) {
    key in p && match p[key]
      case Tree(j) => j.Num? && e.n.rat(j.text) == Some(x)
      case Float(y) => e.n.rat(e.n.ftoa(y)) == Some(x)
      case Int(i) => e.n.rat(e.n.itoa(i)) == Some(x)
  }

  predicate IsRate(rates: Rates, code: string, x: real) {
    code in rates && rates[code] == x
  }

  /** A field times a rate. */
  ghost predicate Charge(e: Env, rates: Rates, p: Payload, field: string, rate: string, x: real) {
    exists n, r :: IsNumber(e, p, field, n) && IsRate(rates, rate, r) && x == n * r
  }

  ghost predicate TwoOf(e: Env, rates: Rates, p: Payload, f: string, c: string, g: string, d: string, x: real) {
    exists a, b :: Charge(e, rates, p, f, c, a) && Charge(e, rates, p, g, d, b) && x == a + b
  }

  function TextIn(p: Payload, key: string): string {
    if key in p && p[key].Tree? && p[key].j.Str? then p[key].j.s else ""
  }

  ghost predicate PracticeComes(e: Env, rates: Rates, p: Payload, x: real) {
    exists month, n :: IsNumber(e, p, "duration_months", n) && x == month * n
      && TwoOf(e, rates, p, "student_load_hours_per_month", "internship.student_hour",
               "mentor_load_hours_per_month", "internship.mentor_hour", month)
  }

  /** Hours of each teacher, times the teachers, times the rate of an hour. */
  ghost predicate HoursCome(e: Env, rates: Rates, p: Payload, x: real) {
    exists hours, teachers, hourly ::
      && IsNumber(e, p, "academic_hours_per_teacher", hours) && IsNumber(e, p, "trained_teachers_count", teachers)
      && IsRate(rates, "teacher_training.academic_hour", hourly)
      && x == hours * teachers * hourly
  }

  ghost predicate TrainingComes(e: Env, rates: Rates, p: Payload, x: real) {
    exists development, hours ::
      && Charge(e, rates, p, "developed_programs_count", "teacher_training.program_development", development)
      && HoursCome(e, rates, p, hours) && x == development + hours
  }

  function RateOfDocument(p: Payload): string {
    "ood_rpd." + TextIn(p, "doc_type") + "." + TextIn(p, "level") + "." + TextIn(p, "activity_type")
  }

  function RateOfHour(audience: string): string {
    if audience == "kolledj" then "teachers.academic_hour.kolledj" else "teachers.academic_hour.vuz"
  }

  function FieldOfTopIt(p: Payload): string {
    if "actual_spent_amount_rub" in p then "actual_spent_amount_rub" else "cofinancing_amount_rub"
  }

  /** What an activity comes to in rubles. */
  ghost predicate Comes(e: Env, rates: Rates, a: Activity, audience: string, p: Payload, x: real) {
    match a
    case Teachers => Charge(e, rates, p, "academic_hours", RateOfHour(audience), x)
    case Practice => PracticeComes(e, rates, p, x)
    case OodRpd => IsRate(rates, RateOfDocument(p), x)
    case TopIt => IsNumber(e, p, FieldOfTopIt(p), x)
    case MincDecision => IsNumber(e, p, "amount_manual", x)
    case ItClubs =>
      TwoOf(e, rates, p, "academic_hours", "it_clubs.academic_hour",
            "developed_programs_count", "it_clubs.program_development", x)
    case TeacherTraining => TrainingComes(e, rates, p, x)
    case EduContent =>
      TwoOf(e, rates, p, "student_platform_months", "edu_content.student_platform_month",
            "teacher_platform_months", "edu_content.teacher_platform_month", x)
  }

  /** The codes of the activities. */
  predicate Code(code: string, a: Activity) {
    match a
    case Teachers => code == "teachers"
    case Practice => code == "internship" || code == "employment_practice"
    case OodRpd => code == "ood_rpd"
    case TopIt => code == "top_it"
    case MincDecision => code == "minc_decision"
    case ItClubs => code == "it_clubs"
    case TeacherTraining => code == "teacher_training"
    case EduContent => code == "edu_content"
  }

  lemma CodeExact(code: string, a: Activity)
    ensures Code(code, a) <==> ActivityOf(code) == Some(a)
  {
  }

  // ----- the methodology is what the calculation computes -----

  lemma NumberExact(e: Env, p: Payload, key: string, x: real)
    ensures IsNumber(e, p, key, x) <==> NumberAt(e, p, key) == Some(x)
  {
  }

  lemma ChargeExact(e: Env, rates: Rates, p: Payload, field: string, rate: string, x: real)
    ensures Charge(e, rates, p, field, rate, x) <==> ChargeAt(e, rates, p, field, rate) == Some(x)
  {
    if Charge(e, rates, p, field, rate, x) {
      var n, r :| IsNumber(e, p, field, n) && IsRate(rates, rate, r) && x == n * r;
      assert NumberAt(e, p, field) == Some(n) && RateAt(rates, rate) == Some(r) && Times(n, r) == n * r;
    }
    if NumberAt(e, p, field).Some? && RateAt(rates, rate).Some? {
      var n, r := NumberAt(e, p, field).value, RateAt(rates, rate).value;
      assert IsNumber(e, p, field, n) && IsRate(rates, rate, r) && Times(n, r) == n * r;
    }
  }

  function ChargeAt(e: Env, rates: Rates, p: Payload, field: string, rate: string): Option<real> {
    var n, r := NumberAt(e, p, field), RateAt(rates, rate);
    if n.Some? && r.Some? then Some(Times(n.value, r.value)) else None
  }

  /** All the numbers and rates of an activity are there. */
  predicate Found(e: Env, rates: Rates, a: Activity, audience: string, p: Payload) {
    AllFound(FieldLookup(e, p), FieldsOf(a, p)) && AllFound(RateLookup(rates), RatesOf(a, audience, p))
  }

  /** Lists of one, two or three names, looked up. */
  lemma Lookups(f: string -> Option<real>, a: string, b: string, c: string)
    ensures Looked(f, [a]) == [OrZero(f(a))] && (AllFound(f, [a]) <==> f(a).Some?)
    ensures Looked(f, [a, b]) == [OrZero(f(a)), OrZero(f(b))] && (AllFound(f, [a, b]) <==> f(a).Some? && f(b).Some?)
    ensures Looked(f, [a, b, c]) == [OrZero(f(a)), OrZero(f(b)), OrZero(f(c))]
    ensures AllFound(f, [a, b, c]) <==> f(a).Some? && f(b).Some? && f(c).Some?
  {
    assert [a][0] == a;
    assert [a, b][0] == a && [a, b][1] == b;
    assert [a, b, c][0] == a && [a, b, c][1] == b && [a, b, c][2] == c;
  }

  lemma TwoExact(e: Env, rates: Rates, p: Payload, f: string, c: string, g: string, d: string, x: real)
    ensures TwoOf(e, rates, p, f, c, g, d, x) <==>
      var a, b := ChargeAt(e, rates, p, f, c), ChargeAt(e, rates, p, g, d);
      a.Some? && b.Some? && x == a.value + b.value
  {
    forall y
      ensures Charge(e, rates, p, f, c, y) <==> ChargeAt(e, rates, p, f, c) == Some(y)
      ensures Charge(e, rates, p, g, d, y) <==> ChargeAt(e, rates, p, g, d) == Some(y)
    {
      ChargeExact(e, rates, p, f, c, y);
      ChargeExact(e, rates, p, g, d, y);
    }
    var a, b := ChargeAt(e, rates, p, f, c), ChargeAt(e, rates, p, g, d);
    if a.Some? && b.Some? {
      assert Charge(e, rates, p, f, c, a.value) && Charge(e, rates, p, g, d, b.value);
    }
  }

  lemma TeachersExact(e: Env, rates: Rates, audience: string, p: Payload, x: real)
    ensures Comes(e, rates, Teachers, audience, p, x) <==>
      Found(e, rates, Teachers, audience, p) && x == ExactRubles(e, rates, Teachers, audience, p)
  {
    var rate := HourlyRate(audience);
    Lookups(FieldLookup(e, p), "academic_hours", "", "");
    Lookups(RateLookup(rates), rate, "", "");
    ChargeExact(e, rates, p, "academic_hours", rate, x);
  }

  lemma TwoChargesExact(e: Env, rates: Rates, p: Payload, f: string, c: string, g: string, d: string, x: real)
    ensures TwoOf(e, rates, p, f, c, g, d, x) <==>
      var v, r := Looked(FieldLookup(e, p), [f, g]), Looked(RateLookup(rates), [c, d]);
      && AllFound(FieldLookup(e, p), [f, g]) && AllFound(RateLookup(rates), [c, d])
      && x == Times(v[0], r[0]) + Times(v[1], r[1])
  {
    Lookups(FieldLookup(e, p), f, g, "");
    Lookups(RateLookup(rates), c, d, "");
    TwoExact(e, rates, p, f, c, g, d, x);
  }

  lemma ClubsExact(e: Env, rates: Rates, audience: string, p: Payload, x: real)
    ensures Comes(e, rates, ItClubs, audience, p, x) <==>
      Found(e, rates, ItClubs, audience, p) && x == ExactRubles(e, rates, ItClubs, audience, p)
  {
    TwoChargesExact(e, rates, p, "academic_hours", "it_clubs.academic_hour",
                    "developed_programs_count", "it_clubs.program_development", x);
  }

  lemma ContentExact(e: Env, rates: Rates, audience: string, p: Payload, x: real)
    ensures Comes(e, rates, EduContent, audience, p, x) <==>
      Found(e, rates, EduContent, audience, p) && x == ExactRubles(e, rates, EduContent, audience, p)
  {
    TwoChargesExact(e, rates, p, "student_platform_months", "edu_content.student_platform_month",
                    "teacher_platform_months", "edu_content.teacher_platform_month", x);
  }

  const STUDENT_LOAD := "student_load_hours_per_month"
  const MENTOR_LOAD := "mentor_load_hours_per_month"
  const DURATION := "duration_months"

  lemma PracticeInParts(e: Env, rates: Rates, p: Payload, x: real)
    ensures PracticeComes(e, rates, p, x) <==>
      var a := ChargeAt(e, rates, p, STUDENT_LOAD, "internship.student_hour");
      var b := ChargeAt(e, rates, p, MENTOR_LOAD, "internship.mentor_hour");
      var n := NumberAt(e, p, DURATION);
      a.Some? && b.Some? && n.Some? && x == Times(a.value + b.value, n.value)
  {
    var c, d := "internship.student_hour", "internship.mentor_hour";
    var a, b := ChargeAt(e, rates, p, STUDENT_LOAD, c), ChargeAt(e, rates, p, MENTOR_LOAD, d);
    forall y
      ensures TwoOf(e, rates, p, STUDENT_LOAD, c, MENTOR_LOAD, d, y) <==> a.Some? && b.Some? && y == a.value + b.value
    {
      TwoExact(e, rates, p, STUDENT_LOAD, c, MENTOR_LOAD, d, y);
    }
    if a.Some? && b.Some? && NumberAt(e, p, DURATION).Some? {
      assert IsNumber(e, p, DURATION, NumberAt(e, p, DURATION).value)
        && TwoOf(e, rates, p, STUDENT_LOAD, c, MENTOR_LOAD, d, a.value + b.value);
    }
  }

  lemma PracticeExact(e: Env, rates: Rates, audience: string, p: Payload, x: real)
    ensures Comes(e, rates, Practice, audience, p, x) <==>
      Found(e, rates, Practice, audience, p) && x == ExactRubles(e, rates, Practice, audience, p)
  {
    Lookups(FieldLookup(e, p), STUDENT_LOAD, MENTOR_LOAD, DURATION);
    Lookups(RateLookup(rates), "internship.student_hour", "internship.mentor_hour", "");
    PracticeInParts(e, rates, p, x);
  }

  const DEVELOPED := "developed_programs_count"
  const HOURS_EACH := "academic_hours_per_teacher"
  const TRAINED := "trained_teachers_count"

  function HoursAt(e: Env, rates: Rates, p: Payload): Option<real> {
    var n, k := NumberAt(e, p, HOURS_EACH), NumberAt(e, p, TRAINED);
    var r := RateAt(rates, "teacher_training.academic_hour");
    if n.Some? && k.Some? && r.Some? then Some(Times(Times(n.value, k.value), r.value)) else None
  }

  lemma HoursExact(e: Env, rates: Rates, p: Payload, x: real)
    ensures HoursCome(e, rates, p, x) <==> HoursAt(e, rates, p) == Some(x)
  {
    if HoursCome(e, rates, p, x) {
      HoursAreAt(e, rates, p, x);
    }
    if HoursAt(e, rates, p) == Some(x) {
      var hours, teachers := NumberAt(e, p, HOURS_EACH).value, NumberAt(e, p, TRAINED).value;
      var hourly := RateAt(rates, "teacher_training.academic_hour").value;
      assert IsNumber(e, p, HOURS_EACH, hours) && IsNumber(e, p, TRAINED, teachers);
      assert IsRate(rates, "teacher_training.academic_hour", hourly);
      Thrice(hours, teachers, hourly);
    }
  }

  lemma HoursAreAt(e: Env, rates: Rates, p: Payload, x: real)
    requires HoursCome(e, rates, p, x)
    ensures HoursAt(e, rates, p) == Some(x)
  {
    var hours, teachers, hourly :|
      && IsNumber(e, p, HOURS_EACH, hours) && IsNumber(e, p, TRAINED, teachers)
      && IsRate(rates, "teacher_training.academic_hour", hourly) && x == hours * teachers * hourly;
    Thrice(hours, teachers, hourly);
    assert NumberAt(e, p, HOURS_EACH) == Some(hours) && NumberAt(e, p, TRAINED) == Some(teachers);
  }

  lemma Thrice(x: real, y: real, z: real)
    ensures Times(Times(x, y), z) == x * y * z
  {
  }

  lemma TrainingInParts(e: Env, rates: Rates, p: Payload, x: real)
    ensures TrainingComes(e, rates, p, x) <==>
      var a, b := ChargeAt(e, rates, p, DEVELOPED, "teacher_training.program_development"), HoursAt(e, rates, p);
      a.Some? && b.Some? && x == a.value + b.value
  {
    var a, b := ChargeAt(e, rates, p, DEVELOPED, "teacher_training.program_development"), HoursAt(e, rates, p);
    forall y
      ensures Charge(e, rates, p, DEVELOPED, "teacher_training.program_development", y) <==> a == Some(y)
      ensures HoursCome(e, rates, p, y) <==> b == Some(y)
    {
      ChargeExact(e, rates, p, DEVELOPED, "teacher_training.program_development", y);
      HoursExact(e, rates, p, y);
    }
    if a.Some? && b.Some? {
      assert HoursCome(e, rates, p, b.value);
    }
  }

  lemma TrainingRubles(e: Env, rates: Rates, audience: string, p: Payload)
    ensures var n, k := OrZero(NumberAt(e, p, HOURS_EACH)), OrZero(NumberAt(e, p, TRAINED));
      ExactRubles(e, rates, TeacherTraining, audience, p)
        == Times(OrZero(NumberAt(e, p, DEVELOPED)), OrZero(RateAt(rates, "teacher_training.program_development")))
           + Times(Times(n, k), OrZero(RateAt(rates, "teacher_training.academic_hour")))
  {
    var v := Looked(FieldLookup(e, p), [DEVELOPED, HOURS_EACH, TRAINED]);
    var r := Looked(RateLookup(rates), ["teacher_training.program_development", "teacher_training.academic_hour"]);
    assert ExactRubles(e, rates, TeacherTraining, audience, p) == Rubles(TeacherTraining, v, r);
  }

  lemma TrainingExact(e: Env, rates: Rates, audience: string, p: Payload, x: real)
    ensures Comes(e, rates, TeacherTraining, audience, p, x) <==>
      Found(e, rates, TeacherTraining, audience, p) && x == ExactRubles(e, rates, TeacherTraining, audience, p)
  {
    assert FieldsOf(TeacherTraining, p) == [DEVELOPED, HOURS_EACH, TRAINED];
    Lookups(FieldLookup(e, p), DEVELOPED, HOURS_EACH, TRAINED);
    TrainingRubles(e, rates, audience, p);
    Lookups(RateLookup(rates), "teacher_training.program_development", "teacher_training.academic_hour", "");
    TrainingInParts(e, rates, p, x);
  }

  lemma DocumentsExact(e: Env, rates: Rates, audience: string, p: Payload, x: real)
    ensures Comes(e, rates, OodRpd, audience, p, x) <==>
      Found(e, rates, OodRpd, audience, p) && x == ExactRubles(e, rates, OodRpd, audience, p)
  {
    assert DocumentRate(p) == RateOfDocument(p);
    Lookups(RateLookup(rates), DocumentRate(p), "", "");
  }

  lemma TopItExact(e: Env, rates: Rates, audience: string, p: Payload, x: real)
    ensures Comes(e, rates, TopIt, audience, p, x) <==>
      Found(e, rates, TopIt, audience, p) && x == ExactRubles(e, rates, TopIt, audience, p)
  {
    assert AmountKey(p) == FieldOfTopIt(p);
    Lookups(FieldLookup(e, p), AmountKey(p), "", "");
  }

  lemma DecisionsExact(e: Env, rates: Rates, audience: string, p: Payload, x: real)
    ensures Comes(e, rates, MincDecision, audience, p, x) <==>
      Found(e, rates, MincDecision, audience, p) && x == ExactRubles(e, rates, MincDecision, audience, p)
  {
    Lookups(FieldLookup(e, p), "amount_manual", "", "");
  }

  /** Every activity comes to what is calculated, if its numbers and rates are there. */
  lemma ComesExactly(e: Env, rates: Rates, a: Activity, audience: string, p: Payload, x: real)
    ensures Comes(e, rates, a, audience, p, x) <==>
      Found(e, rates, a, audience, p) && x == ExactRubles(e, rates, a, audience, p)
  {
    match a
    case Teachers => TeachersExact(e, rates, audience, p, x);
    case Practice => PracticeExact(e, rates, audience, p, x);
    case OodRpd => DocumentsExact(e, rates, audience, p, x);
    case TopIt => TopItExact(e, rates, audience, p, x);
    case MincDecision => DecisionsExact(e, rates, audience, p, x);
    case ItClubs => ClubsExact(e, rates, audience, p, x);
    case TeacherTraining => TrainingExact(e, rates, audience, p, x);
    case EduContent => ContentExact(e, rates, audience, p, x);
  }

  /** The whole number of kopecks nearest to a sum of rubles, the upper of two. */
  predicate Nearest(x: real, k: int) {
    x >= 0.0 && k as real - 0.5 <= x * 100.0 < k as real + 0.5
  }

  /**
   An amount of k kopecks is stored if and only if the checks passed, the activity comes to some sum that is
   not negative, k is the whole number of kopecks nearest to it, and k fits the column.
   */
  lemma AmountExactly(e: Env, rates: Rates, accepted: bool, code: string, audience: string, p: Payload, k: int)
    ensures AmountSpec(e, rates, accepted, code, audience, p) == Ok(k) <==>
      && accepted && 0 <= k <= 9_999_999_999_999_999
      && exists a, x :: Code(code, a) && Comes(e, rates, a, audience, p, x) && Nearest(x, k)
  {
    forall a
      ensures Code(code, a) <==> ActivityOf(code) == Some(a)
    {
      CodeExact(code, a);
    }
    if ActivityOf(code).Some? {
      var a := ActivityOf(code).value;
      AmountOfActivity(e, rates, a, audience, p, k);
      SpecOfActivity(e, rates, accepted, code, a, audience, p, k);
      assert Code(code, a);
    }
  }

  lemma SpecOfActivity(
    e: Env, rates: Rates, accepted: bool, code: string, a: Activity, audience: string, p: Payload, k: int)
    requires ActivityOf(code) == Some(a)
    ensures AmountSpec(e, rates, accepted, code, audience, p) == Ok(k) <==>
      accepted && Found(e, rates, a, audience, p) && AmountOf(ExactRubles(e, rates, a, audience, p)) == Ok(k)
  {
  }

  function AmountOf(x: real): Result<int, CalcError> {
    match ToKopecks(x)
    case Err(e) => Err(e)
    case Ok(k) => if k > MAX_AMOUNT then Err(AmountTooLarge) else Ok(k)
  }

  lemma AmountOfActivity(e: Env, rates: Rates, a: Activity, audience: string, p: Payload, k: int)
    ensures Found(e, rates, a, audience, p) && AmountOf(ExactRubles(e, rates, a, audience, p)) == Ok(k) <==>
      0 <= k <= 9_999_999_999_999_999 && exists x :: Comes(e, rates, a, audience, p, x) && Nearest(x, k)
  {
    var x := ExactRubles(e, rates, a, audience, p);
    forall y
      ensures Comes(e, rates, a, audience, p, y) <==> Found(e, rates, a, audience, p) && y == x
    {
      ComesExactly(e, rates, a, audience, p, y);
    }
    RoundedTo(x, k);
  }

  lemma RoundedTo(x: real, k: int)
    ensures AmountOf(x) == Ok(k) <==> 0 <= k <= 9_999_999_999_999_999 && Nearest(x, k)
  {
    if 0 <= k <= MAX_INT64 {
      KopecksAreNearest(x, k);
    }
  }

  /** What was reported as transferred does not count once what was spent is known. */
  lemma SpentDecides(e: Env, rates: Rates, accepted: bool, audience: string, p: Payload, v: Value, k: int)
    requires "actual_spent_amount_rub" in p
    ensures AmountSpec(e, rates, accepted, "top_it", audience, p["cofinancing_amount_rub" := v]) == Ok(k) <==>
      AmountSpec(e, rates, accepted, "top_it", audience, p) == Ok(k)
  {
    var q := p["cofinancing_amount_rub" := v];
    AmountExactly(e, rates, accepted, "top_it", audience, p, k);
    AmountExactly(e, rates, accepted, "top_it", audience, q, k);
    forall a, x | Code("top_it", a)
      ensures Comes(e, rates, a, audience, q, x) <==> Comes(e, rates, a, audience, p, x)
    {
      assert a == TopIt && FieldOfTopIt(q) == FieldOfTopIt(p) == "actual_spent_amount_rub";
    }
  }
}
