/** Records of the exchange and the composite key by which two systems match them. */
module MatchKey {
  import opened Sequences
  import opened Wrappers
  import opened Json
  import Container

  type Error = Container.Error

  /** A payload value by its Go type: decoded JSON, an integer, or a float64 by its exact value. */
  datatype Value = Tree(j: Json) | Int(i: int) | Float(x: real)

  datatype Record = Record(category: string, audience: string, amountRub: string, payload: map<string, Value>)

  datatype Key = Key(category: string, specialty: string, person: string, subject: string, period: string)

  /** Character classes and case of the unicode package. */
  datatype Unicode = Unicode(isLetter: char -> bool, isDigit: char -> bool, isSpace: char -> bool, lower: char -> char)

  /** big.Rat and strconv: the value of a number text, and the texts of values. */
  datatype Numbers = Numbers(
    rat: string -> Option<real>,
    text: real -> string,
    itoa: int -> string,
    ftoa: real -> string,
    sprint: Json -> string)

  datatype KeyFields = KeyFields(
    person: seq<string>, specialty: seq<string>, subject: seq<string>, period: seq<string>,
    periodStart: string, periodEnd: string)

  /** The tables that say how records of each category are matched. */
  datatype Rules = Rules(fields: map<string, KeyFields>, qualifiers: map<string, seq<string>>)

  datatype Env = Env(u: Unicode, n: Numbers, k: Rules)

  predicate Alnum(u: Unicode, c: char) {
    u.isLetter(c) || u.isDigit(c)
  }

  /** What is used of Unicode: lower-casing keeps letters and digits, and is done after one step. */
  ghost predicate UnicodeOk(u: Unicode) {
    && (forall c :: Alnum(u, c) ==> Alnum(u, u.lower(c)) && u.lower(u.lower(c)) == u.lower(c))
    && (forall c :: u.isSpace(c) ==> !Alnum(u, c))
    && u.isSpace(' ') && !Alnum(u, '|') && !Alnum(u, '.') && !Alnum(u, '-')
    && u.lower('.') == '.' && u.lower('-') == '-'
    && Alnum(u, YE) && u.lower(YE) == YE
  }

  const YO := '\U{0451}'
  const YE := '\U{0435}'

  function TrimLeft(u: Unicode, s: string): (r: string)
    ensures |r| <= |s| && (r == "" || !u.isSpace(r[0]))
  {
    if s != "" && u.isSpace(s[0]) then TrimLeft(u, s[1..]) else s
  }

  function TrimRight(u: Unicode, s: string): (r: string)
    ensures r <= s && (r == "" || !u.isSpace(r[|r| - 1]))
  {
    if s != "" && u.isSpace(s[|s| - 1]) then TrimRight(u, s[..|s| - 1]) else s
  }

  function Trim(u: Unicode, s: string): string {
    TrimRight(u, TrimLeft(u, s))
  }

  // ----- folding names -----

  function FoldChar(u: Unicode, c: char): char {
    if u.lower(c) == YO then YE else u.lower(c)
  }

  function FoldWord(u: Unicode, w: string): (r: string)
    ensures |r| == |w| && forall i :: 0 <= i < |w| ==> r[i] == FoldChar(u, w[i])
  {
    if w == "" then "" else [FoldChar(u, w[0])] + FoldWord(u, w[1..])
  }

  function FoldWords(u: Unicode, ws: seq<string>): (r: seq<string>)
    ensures |r| == |ws| && forall i :: 0 <= i < |ws| ==> r[i] == FoldWord(u, ws[i])
  {
    if ws == [] then [] else [FoldWord(u, ws[0])] + FoldWords(u, ws[1..])
  }

  /** The length of the run of letters and digits at the front. */
  function Run(u: Unicode, s: string): (n: nat)
    ensures n <= |s| && (forall i :: 0 <= i < n ==> Alnum(u, s[i])) && (n < |s| ==> !Alnum(u, s[n]))
  {
    if s == "" || !Alnum(u, s[0]) then 0 else 1 + Run(u, s[1..])
  }

  /** The maximal runs of letters and digits. */
  function Words(u: Unicode, s: string): seq<string>
    decreases |s|
  {
    if s == "" then []
    else if !Alnum(u, s[0]) then Words(u, s[1..])
    else
      var n := Run(u, s);
      [s[..n]] + Words(u, s[n..])
  }

  function JoinWords(ws: seq<string>): string {
    if ws == [] then ""
    else if |ws| == 1 then ws[0]
    else ws[0] + " " + JoinWords(ws[1..])
  }

  /** The rule for names: the folded runs, with one space between them. */
  function Folded(u: Unicode, s: string): string {
    JoinWords(FoldWords(u, Words(u, s)))
  }

  lemma {:induction false} RunAppend(u: Unicode, s: string, c: char)
    ensures Run(u, s + [c]) == if Run(u, s) < |s| then Run(u, s) else if Alnum(u, c) then |s| + 1 else |s|
  {
    if s == "" {
      assert s + [c] == [c] && [c][1..] == "";
    } else if Alnum(u, s[0]) {
      AppendTail(s, [c]);
      RunAppend(u, s[1..], c);
    } else {
      AppendTail(s, [c]);
    }
  }

  lemma {:induction false} WordsSkip(u: Unicode, s: string, c: char)
    requires !Alnum(u, c)
    ensures Words(u, s + [c]) == Words(u, s)
    decreases |s|
  {
    if s == "" {
      assert s + [c] == [c] && [c][1..] == "";
    } else {
      AppendTail(s, [c]);
      if !Alnum(u, s[0]) {
        WordsSkip(u, s[1..], c);
      } else {
        var n := Run(u, s);
        RunAppend(u, s, c);
        assert (s + [c])[..n] == s[..n] && (s + [c])[n..] == s[n..] + [c];
        WordsSkip(u, s[n..], c);
      }
    }
  }

  lemma {:induction false} WordsNew(u: Unicode, s: string, c: char)
    requires Alnum(u, c) && (s == "" || !Alnum(u, s[|s| - 1]))
    ensures Words(u, s + [c]) == Words(u, s) + [[c]]
    decreases |s|
  {
    if s == "" {
      assert s + [c] == [c] && [c][1..] == "" && Run(u, [c]) == 1;
      assert [c][..1] == [c];
    } else {
      AppendTail(s, [c]);
      if !Alnum(u, s[0]) {
        WordsNew(u, s[1..], c);
      } else {
        var n := Run(u, s);
        RunAppend(u, s, c);
        assert n < |s|;
        assert (s + [c])[..n] == s[..n] && (s + [c])[n..] == s[n..] + [c];
        WordsNew(u, s[n..], c);
      }
    }
  }

  lemma {:induction false} WordsGrow(u: Unicode, s: string, c: char)
    requires Alnum(u, c) && s != "" && Alnum(u, s[|s| - 1])
    ensures var ws := Words(u, s);
      ws != [] && Words(u, s + [c]) == ws[..|ws| - 1] + [ws[|ws| - 1] + [c]]
    decreases |s|
  {
    AppendTail(s, [c]);
    if !Alnum(u, s[0]) {
      WordsGrow(u, s[1..], c);
    } else {
      var n := Run(u, s);
      RunAppend(u, s, c);
      if n == |s| {
        assert s[..n] == s && s[n..] == "";
        assert (s + [c])[..n + 1] == s + [c] && (s + [c])[n + 1..] == "";
      } else {
        assert (s + [c])[..n] == s[..n] && (s + [c])[n..] == s[n..] + [c];
        WordsGrow(u, s[n..], c);
      }
    }
  }

  lemma {:induction false} JoinSnoc(ws: seq<string>, w: string)
    ensures JoinWords(ws + [w]) == if ws == [] then w else JoinWords(ws) + " " + w
  {
    if ws == [] {
      assert ws + [w] == [w];
    } else if |ws| == 1 {
      assert (ws + [w])[1..] == [w];
    } else {
      AppendTail(ws, [w]);
      JoinSnoc(ws[1..], w);
      ConcatAssoc(ws[0] + " ", JoinWords(ws[1..]), " ");
      ConcatAssoc(ws[0] + " ", JoinWords(ws[1..]) + " ", w);
    }
  }

  lemma FoldWordsSnoc(u: Unicode, ws: seq<string>, w: string)
    ensures FoldWords(u, ws + [w]) == FoldWords(u, ws) + [FoldWord(u, w)]
  {
  }

  lemma FoldedGrow(u: Unicode, s: string, c: char)
    requires Alnum(u, c) && s != "" && Alnum(u, s[|s| - 1])
    ensures Folded(u, s + [c]) == Folded(u, s) + [FoldChar(u, c)]
  {
    WordsGrow(u, s, c);
    var ws := Words(u, s);
    var init, last := ws[..|ws| - 1], ws[|ws| - 1];
    assert ws == init + [last];
    FoldWordsSnoc(u, init, last);
    FoldWordsSnoc(u, init, last + [c]);
    JoinSnoc(FoldWords(u, init), FoldWord(u, last));
    JoinSnoc(FoldWords(u, init), FoldWord(u, last + [c]));
    FoldWordSnoc(u, last, c);
    ConcatAssoc(JoinWords(FoldWords(u, init)) + " ", FoldWord(u, last), [FoldChar(u, c)]);
  }

  /** One more character of the input, by what it does to the folded text. */
  lemma FoldedSnoc(u: Unicode, s: string, c: char)
    ensures Folded(u, s + [c]) ==
      if !Alnum(u, c) then Folded(u, s)
      else if s != "" && Alnum(u, s[|s| - 1]) then Folded(u, s) + [FoldChar(u, c)]
      else if Words(u, s) == [] then [FoldChar(u, c)]
      else Folded(u, s) + " " + [FoldChar(u, c)]
  {
    if !Alnum(u, c) {
      WordsSkip(u, s, c);
    } else if s != "" && Alnum(u, s[|s| - 1]) {
      FoldedGrow(u, s, c);
    } else {
      WordsNew(u, s, c);
      FoldWordsSnoc(u, Words(u, s), [c]);
      JoinSnoc(FoldWords(u, Words(u, s)), FoldWord(u, [c]));
      assert FoldWord(u, [c]) == [FoldChar(u, c)];
    }
  }

  lemma FoldWordSnoc(u: Unicode, w: string, c: char)
    ensures FoldWord(u, w + [c]) == FoldWord(u, w) + [FoldChar(u, c)]
  {
  }

  lemma WordsAfter(u: Unicode, s: string, c: char)
    ensures Words(u, s + [c]) == [] <==> Words(u, s) == [] && !Alnum(u, c)
    ensures s != "" && Alnum(u, s[|s| - 1]) ==> Words(u, s) != []
  {
    if !Alnum(u, c) {
      WordsSkip(u, s, c);
    } else if s != "" && Alnum(u, s[|s| - 1]) {
      WordsGrow(u, s, c);
    } else {
      WordsNew(u, s, c);
    }
    if s != "" && Alnum(u, s[|s| - 1]) {
      WordsGrow(u, s, s[|s| - 1]);
    }
  }

  /** The builder and the flag after the characters of s. */
  ghost predicate FoldedSoFar(u: Unicode, s: string, out: string, pendingSpace: bool) {
    && out == Folded(u, s)
    && (out == "" <==> Words(u, s) == [])
    && (pendingSpace <==> s != "" && !Alnum(u, s[|s| - 1]))
  }

  lemma FoldOneMore(u: Unicode, s: string, out: string, pendingSpace: bool, c: char)
    requires FoldedSoFar(u, s, out, pendingSpace)
    ensures if !Alnum(u, c) then FoldedSoFar(u, s + [c], out, true)
            else FoldedSoFar(u, s + [c], (if pendingSpace && |out| > 0 then out + " " else out) + [FoldChar(u, c)], false)
  {
    FoldedSnoc(u, s, c);
    WordsAfter(u, s, c);
    assert "" + [FoldChar(u, c)] == [FoldChar(u, c)];
  }

  /** The loop of foldText: a builder and a flag for a space that is due. */
  method FoldText(u: Unicode, value: string) returns (out: string)
    ensures out == Folded(u, value)
  {
    out := "";
    var pendingSpace := false;
    var i := 0;
    while i < |value|
      invariant i <= |value| && FoldedSoFar(u, value[..i], out, pendingSpace)
    {
      var c := value[i];
      assert value[..i + 1] == value[..i] + [c];
      FoldOneMore(u, value[..i], out, pendingSpace, c);
      if Alnum(u, c) {
        if pendingSpace && |out| > 0 {
          out := out + " ";
        }
        pendingSpace := false;
        out := out + [if u.lower(c) == YO then YE else u.lower(c)];
      } else {
        pendingSpace := true;
      }
      i := i + 1;
    }
    assert value[..i] == value;
  }

  /** A word as it comes out of Words: not empty, letters and digits only. */
  ghost predicate AreWords(u: Unicode, ws: seq<string>) {
    forall i :: 0 <= i < |ws| ==> ws[i] != "" && forall j :: 0 <= j < |ws[i]| ==> Alnum(u, ws[i][j])
  }

  lemma {:induction false} WordsAreWords(u: Unicode, s: string)
    ensures AreWords(u, Words(u, s))
    decreases |s|
  {
    if s != "" {
      if Alnum(u, s[0]) {
        WordsAreWords(u, s[Run(u, s)..]);
      } else {
        WordsAreWords(u, s[1..]);
      }
    }
  }

  lemma {:induction false} RunOfWord(u: Unicode, w: string, rest: string)
    requires (forall j :: 0 <= j < |w| ==> Alnum(u, w[j])) && (rest == "" || !Alnum(u, rest[0]))
    ensures Run(u, w + rest) == |w|
  {
    if w == "" {
      assert w + rest == rest;
    } else {
      AppendTail(w, rest);
      RunOfWord(u, w[1..], rest);
    }
  }

  lemma {:induction false} WordsOfJoin(u: Unicode, ws: seq<string>)
    requires AreWords(u, ws) && !Alnum(u, ' ')
    ensures Words(u, JoinWords(ws)) == ws
  {
    if ws != [] {
      var w := ws[0];
      var rest := if |ws| == 1 then "" else " " + JoinWords(ws[1..]);
      assert w + "" == w;
      ConcatAssoc(w, " ", JoinWords(ws[1..]));
      assert JoinWords(ws) == w + rest;
      RunOfWord(u, w, rest);
      assert (w + rest)[..|w|] == w && (w + rest)[|w|..] == rest;
      assert (w + rest)[0] == w[0];
      if |ws| > 1 {
        assert rest[1..] == JoinWords(ws[1..]);
        WordsOfJoin(u, ws[1..]);
      }
      assert ws == [w] + ws[1..];
    }
  }

  lemma FoldWordsAreWords(u: Unicode, ws: seq<string>)
    requires UnicodeOk(u) && AreWords(u, ws)
    ensures AreWords(u, FoldWords(u, ws)) && FoldWords(u, FoldWords(u, ws)) == FoldWords(u, ws)
  {
    forall i | 0 <= i < |ws|
      ensures FoldWord(u, FoldWord(u, ws[i])) == FoldWord(u, ws[i])
    {
      forall j | 0 <= j < |ws[i]|
        ensures FoldChar(u, FoldChar(u, ws[i][j])) == FoldChar(u, ws[i][j])
      {
        assert Alnum(u, ws[i][j]);
      }
    }
  }

  /** Folding twice is folding once. */
  lemma FoldIsIdempotent(u: Unicode, s: string)
    requires UnicodeOk(u)
    ensures Folded(u, Folded(u, s)) == Folded(u, s)
  {
    WordsAreWords(u, s);
    FoldWordsAreWords(u, Words(u, s));
    WordsOfJoin(u, FoldWords(u, Words(u, s)));
  }

  // ----- codes, field texts and keys -----

  predicate CodeChar(u: Unicode, c: char) {
    Alnum(u, c) || c == '.' || c == '-'
  }

  /** The rule for codes and dates: letters, digits, points and dashes, in lower case. */
  function FoldedCode(u: Unicode, s: string): string {
    if s == "" then ""
    else if CodeChar(u, s[0]) then [u.lower(s[0])] + FoldedCode(u, s[1..])
    else FoldedCode(u, s[1..])
  }

  lemma {:induction false} FoldedCodeAppend(u: Unicode, a: string, b: string)
    ensures FoldedCode(u, a + b) == FoldedCode(u, a) + FoldedCode(u, b)
  {
    if a == "" {
      assert a + b == b;
    } else {
      AppendTail(a, b);
      FoldedCodeAppend(u, a[1..], b);
    }
  }

  method FoldCode(u: Unicode, value: string) returns (out: string)
    ensures out == FoldedCode(u, value)
  {
    out := "";
    var i := 0;
    while i < |value|
      invariant i <= |value| && out == FoldedCode(u, value[..i])
    {
      assert value[..i + 1] == value[..i] + [value[i]];
      FoldedCodeAppend(u, value[..i], [value[i]]);
      if CodeChar(u, value[i]) {
        out := out + [u.lower(value[i])];
      }
      i := i + 1;
    }
    assert value[..i] == value;
  }

  /** The text of a payload field; numbers are written alike whatever type holds them. */
  function FieldText(e: Env, payload: map<string, Value>, field: string): string {
    if field !in payload then "" else ValueText(e, payload[field])
  }

  function ValueText(e: Env, v: Value): string {
    match v
    case Int(i) => e.n.itoa(i)
    case Float(x) => e.n.text(x)
    case Tree(Null) => ""
    case Tree(Str(s)) => Trim(e.u, s)
    case Tree(Bool(b)) => if b then "true" else "false"
    case Tree(Num(t)) => (match e.n.rat(t) case Some(r) => e.n.text(r) case None => Trim(e.u, t))
    case Tree(j) => Trim(e.u, e.n.sprint(j))
  }

  function FirstText(e: Env, payload: map<string, Value>, fields: seq<string>): string {
    if fields == [] then ""
    else if FieldText(e, payload, fields[0]) != "" then FieldText(e, payload, fields[0])
    else FirstText(e, payload, fields[1..])
  }

  const TEACHER_FIELDS :=
    KeyFields(["teacher_full_name"], ["specialty_code", "training_direction"], ["course_name"], ["semester"], "", "")
  const INTERNSHIP_FIELDS := KeyFields(
    ["student_full_name"], ["specialty_code"], ["course"], ["period"], "period_start", "period_end")
  const OOD_RPD_FIELDS := KeyFields(["expert_full_name"], ["specialty_code"], ["program_name"], [], "", "")
  const TOP_IT_FIELDS := KeyFields([], [], ["project_name", "program_name"], ["program_wave"], "", "")
  const IT_CLUB_FIELDS := KeyFields(["employee_full_name"], [], ["program_name"], [], "", "")
  const TRAINING_FIELDS := KeyFields([], [], ["program_name"], [], "", "")
  const CONTENT_FIELDS :=
    KeyFields([], [], ["platform_name"], [], "digital_trace_period_start", "digital_trace_period_end")
  const DECISION_FIELDS := KeyFields(
    [], [], ["decision_number", "decision_reference", "instruction_reference"], ["implementation_start"], "", "")
  const OOD_RPD_QUALIFIERS := ["doc_type", "activity_type"]

  /** Which fields make the key of a category, and which of them qualify its subject. */
  const STANDARD_RULES := Rules(
    map[
      "teachers" := TEACHER_FIELDS,
      "internship" := INTERNSHIP_FIELDS,
      "employment_practice" := INTERNSHIP_FIELDS,
      "ood_rpd" := OOD_RPD_FIELDS,
      "top_it" := TOP_IT_FIELDS,
      "it_clubs" := IT_CLUB_FIELDS,
      "teacher_training" := TRAINING_FIELDS,
      "edu_content" := CONTENT_FIELDS,
      "minc_decision" := DECISION_FIELDS
    ],
    map["ood_rpd" := OOD_RPD_QUALIFIERS])

  function Qualifiers(k: Rules, category: string): seq<string> {
    if category in k.qualifiers then k.qualifiers[category] else []
  }

  function Qualified(e: Env, payload: map<string, Value>, subject: string, qualifiers: seq<string>): string
    decreases |qualifiers|
  {
    if qualifiers == [] then subject
    else Qualified(e, payload, subject + " " + Folded(e.u, FieldText(e, payload, qualifiers[0])), qualifiers[1..])
  }

  function Period(e: Env, payload: map<string, Value>, f: KeyFields): string {
    var start := if f.periodStart == "" then "" else FoldedCode(e.u, FieldText(e, payload, f.periodStart));
    var end := if f.periodStart == "" then "" else FoldedCode(e.u, FieldText(e, payload, f.periodEnd));
    if start != "" || end != "" then start + ".." + end
    else FoldedCode(e.u, FirstText(e, payload, f.period))
  }

  /** The composite key: category, specialty, person, subject and period, each folded. */
  function KeyFrom(e: Env, r: Record, f: KeyFields): Key {
    var subject := Folded(e.u, FirstText(e, r.payload, f.subject));
    Key(
      r.category,
      FoldedCode(e.u, FirstText(e, r.payload, f.specialty)),
      Folded(e.u, FirstText(e, r.payload, f.person)),
      Trim(e.u, Qualified(e, r.payload, subject, Qualifiers(e.k, r.category))),
      Period(e, r.payload, f))
  }

  function KeyOf(e: Env, r: Record): Result<Key, Error> {
    if r.category !in e.k.fields then Err(Container.UnknownCategory)
    else
      var key := KeyFrom(e, r, e.k.fields[r.category]);
      if key.person == "" && key.subject == "" then Err(Container.NoMatchKey) else Ok(key)
  }

  const BAR := " | "

  function KeyString(k: Key): string {
    k.category + BAR + (k.specialty + BAR + (k.person + BAR + (k.subject + BAR + k.period)))
  }

  // ----- the string identifies the key -----

  ghost predicate NoBar(s: string) {
    '|' !in s
  }

  lemma {:induction false} JoinHasNoBar(ws: seq<string>)
    requires forall i :: 0 <= i < |ws| ==> NoBar(ws[i])
    ensures NoBar(JoinWords(ws))
  {
    if |ws| > 1 {
      JoinHasNoBar(ws[1..]);
    }
  }

  lemma FoldedHasNoBar(u: Unicode, s: string)
    requires UnicodeOk(u)
    ensures NoBar(Folded(u, s))
  {
    var ws := FoldWords(u, Words(u, s));
    WordsAreWords(u, s);
    FoldWordsAreWords(u, Words(u, s));
    assert forall i :: 0 <= i < |ws| ==> NoBar(ws[i]);
    JoinHasNoBar(ws);
  }

  lemma {:induction false} CodeHasNoBar(u: Unicode, s: string)
    requires UnicodeOk(u)
    ensures NoBar(FoldedCode(u, s))
  {
    if s != "" {
      CodeHasNoBar(u, s[1..]);
    }
  }

  lemma {:induction false} QualifiedHasNoBar(e: Env, payload: map<string, Value>, subject: string, qualifiers: seq<string>)
    requires UnicodeOk(e.u) && NoBar(subject)
    ensures NoBar(Qualified(e, payload, subject, qualifiers))
    decreases |qualifiers|
  {
    if qualifiers != [] {
      FoldedHasNoBar(e.u, FieldText(e, payload, qualifiers[0]));
      QualifiedHasNoBar(e, payload, subject + " " + Folded(e.u, FieldText(e, payload, qualifiers[0])), qualifiers[1..]);
    }
  }

  lemma {:induction false} TrimLeftHasNoBar(u: Unicode, s: string)
    requires NoBar(s)
    ensures NoBar(TrimLeft(u, s))
  {
    if s != "" && u.isSpace(s[0]) {
      TrimLeftHasNoBar(u, s[1..]);
    }
  }

  ghost predicate KeyHasNoBar(k: Key) {
    NoBar(k.category) && NoBar(k.specialty) && NoBar(k.person) && NoBar(k.subject) && NoBar(k.period)
  }

  /** The names of categories do not contain the bar. */
  ghost predicate RulesOk(k: Rules) {
    forall c :: c in k.fields ==> NoBar(c)
  }

  lemma StandardRulesOk()
    ensures RulesOk(STANDARD_RULES)
  {
  }

  ghost predicate EnvOk(e: Env) {
    UnicodeOk(e.u) && RulesOk(e.k)
  }

  lemma KeyFromHasNoBar(e: Env, r: Record, f: KeyFields)
    requires UnicodeOk(e.u) && NoBar(r.category)
    ensures KeyHasNoBar(KeyFrom(e, r, f))
  {
    var subject := Folded(e.u, FirstText(e, r.payload, f.subject));
    FoldedHasNoBar(e.u, FirstText(e, r.payload, f.subject));
    FoldedHasNoBar(e.u, FirstText(e, r.payload, f.person));
    CodeHasNoBar(e.u, FirstText(e, r.payload, f.specialty));
    QualifiedHasNoBar(e, r.payload, subject, Qualifiers(e.k, r.category));
    TrimLeftHasNoBar(e.u, Qualified(e, r.payload, subject, Qualifiers(e.k, r.category)));
    PeriodHasNoBar(e, r.payload, f);
  }

  /** No part of a key can contain the separator's bar. */
  lemma KeyOfHasNoBar(e: Env, r: Record)
    requires EnvOk(e) && KeyOf(e, r).Ok?
    ensures KeyHasNoBar(KeyOf(e, r).value)
  {
    KeyFromHasNoBar(e, r, e.k.fields[r.category]);
  }

  lemma PeriodHasNoBar(e: Env, payload: map<string, Value>, f: KeyFields)
    requires UnicodeOk(e.u)
    ensures NoBar(Period(e, payload, f))
  {
    CodeHasNoBar(e.u, FieldText(e, payload, f.periodStart));
    CodeHasNoBar(e.u, FieldText(e, payload, f.periodEnd));
    CodeHasNoBar(e.u, FirstText(e, payload, f.period));
  }

  /** The first bar ends the first part. */
  lemma FirstPart(a: string, b: string, x: string, y: string)
    requires NoBar(a) && NoBar(b) && a + BAR + x == b + BAR + y
    ensures a == b && x == y
  {
    var s := a + BAR + x;
    assert s[|a| + 1] == '|' && s == b + BAR + y && s[|b| + 1] == '|';
    if |a| < |b| {
      BarInside(a, b, x, y);
    } else if |b| < |a| {
      BarInside(b, a, y, x);
    }
    assert s[..|a|] == a && (b + BAR + y)[..|b|] == b;
    assert s[|a| + 3..] == x && (b + BAR + y)[|b| + 3..] == y;
  }

  /** Were the first part shorter, the bar after it would stand inside the longer one, or on its space. */
  lemma BarInside(a: string, b: string, x: string, y: string)
    requires |a| < |b| && a + BAR + x == b + BAR + y
    ensures !NoBar(b)
  {
    var s := a + BAR + x;
    assert s[|a|] == ' ' && s[|a| + 1] == '|';
    assert (b + BAR + y)[|b|] == ' ';
    assert s[|a| + 1] == b[|a| + 1];
  }

  /** Keys of records are equal when their strings are. */
  lemma KeyStringInjective(e: Env, r: Record, q: Record)
    requires EnvOk(e) && KeyOf(e, r).Ok? && KeyOf(e, q).Ok?
    requires KeyString(KeyOf(e, r).value) == KeyString(KeyOf(e, q).value)
    ensures KeyOf(e, r) == KeyOf(e, q)
  {
    KeyOfHasNoBar(e, r);
    KeyOfHasNoBar(e, q);
    BarStringsInjective(KeyOf(e, r).value, KeyOf(e, q).value);
  }

  lemma BarStringsInjective(a: Key, b: Key)
    requires KeyHasNoBar(a) && KeyHasNoBar(b) && KeyString(a) == KeyString(b)
    ensures a == b
  {
    var a4, b4 := a.subject + BAR + a.period, b.subject + BAR + b.period;
    var a3, b3 := a.person + BAR + a4, b.person + BAR + b4;
    var a2, b2 := a.specialty + BAR + a3, b.specialty + BAR + b3;
    FirstPart(a.category, b.category, a2, b2);
    FirstPart(a.specialty, b.specialty, a3, b3);
    FirstPart(a.person, b.person, a4, b4);
    FirstPart(a.subject, b.subject, a.period, b.period);
  }
}
