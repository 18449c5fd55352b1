/**
 What makes a match key: the words of names, the characters of codes, the first field that is filled in; and
 so when two records have the same key.
 */
module KeyMeaning {
  import opened Sequences
  import opened Wrappers
  import opened Json
  import opened MatchKey
  import opened FieldValues
  import Container

  // ----- names -----

  ghost predicate NoLetters(u: Unicode, s: string) {
    forall i :: 0 <= i < |s| ==> !Alnum(u, s[i])
  }

  /** Gaps hold no letters or digits, and those between words hold something. */
  ghost predicate GapsOk(u: Unicode, gaps: seq<string>) {
    && (forall i :: 0 <= i < |gaps| ==> NoLetters(u, gaps[i]))
    && forall i :: 0 < i < |gaps| - 1 ==> gaps[i] != ""
  }

  lemma {:induction false} WordsAfterGap(u: Unicode, gap: string, s: string)
    requires NoLetters(u, gap)
    ensures Words(u, gap + s) == Words(u, s)
  {
    if gap == "" {
      assert gap + s == s;
    } else {
      assert (gap + s)[1..] == gap[1..] + s;
      WordsAfterGap(u, gap[1..], s);
    }
  }

  lemma LaidStarts(u: Unicode, gaps: seq<string>, ws: seq<string>)
    requires |gaps| == |ws| + 1 && GapsOk(u, gaps) && (ws != [] ==> gaps[0] != "")
    ensures Laid(gaps, ws) != "" ==> !Alnum(u, Laid(gaps, ws)[0])
  {
  }

  /** Whatever the gaps, the words are found. */
  lemma {:induction false} WordsOfLaid(u: Unicode, gaps: seq<string>, ws: seq<string>)
    requires |gaps| == |ws| + 1 && GapsOk(u, gaps) && AreWords(u, ws)
    ensures Words(u, Laid(gaps, ws)) == ws
    decreases |ws|
  {
    if ws == [] {
      assert gaps[0] + "" == gaps[0];
      WordsAfterGap(u, gaps[0], "");
    } else {
      var w, rest := ws[0], Laid(gaps[1..], ws[1..]);
      WordsAfterGap(u, gaps[0], w + rest);
      LaidStarts(u, gaps[1..], ws[1..]);
      RunOfWord(u, w, rest);
      assert (w + rest)[..|w|] == w && (w + rest)[|w|..] == rest;
      assert (w + rest)[0] == w[0];
      WordsOfLaid(u, gaps[1..], ws[1..]);
    }
  }

  /** Every text is its words, laid out. */
  lemma {:induction false} EveryTextIsLaid(u: Unicode, s: string) returns (gaps: seq<string>)
    ensures |gaps| == |Words(u, s)| + 1 && GapsOk(u, gaps) && Laid(gaps, Words(u, s)) == s
    decreases |s|
  {
    if s == "" {
      gaps := [""];
    } else if !Alnum(u, s[0]) {
      var more := EveryTextIsLaid(u, s[1..]);
      gaps := [[s[0]] + more[0]] + more[1..];
      LaidMore([s[0]], gaps, more, Words(u, s));
      assert NoLetters(u, gaps[0]);
    } else {
      var n := Run(u, s);
      var more := EveryTextIsLaid(u, s[n..]);
      gaps := [""] + more;
      assert gaps[1..] == more;
      assert s == s[..n] + s[n..];
      AfterRun(u, s[n..], more);
    }
  }

  /** After a whole run the next gap is not empty, unless nothing follows. */
  lemma AfterRun(u: Unicode, s: string, gaps: seq<string>)
    requires |gaps| == |Words(u, s)| + 1 && Laid(gaps, Words(u, s)) == s && (s == "" || !Alnum(u, s[0]))
    ensures |gaps| > 1 ==> gaps[0] != ""
  {
    WordsAreWords(u, s);
    LaidWithWord(u, gaps, Words(u, s));
  }

  lemma LaidWithWord(u: Unicode, gaps: seq<string>, ws: seq<string>)
    requires |gaps| == |ws| + 1 && AreWords(u, ws)
    ensures ws != [] && gaps[0] == "" ==> Laid(gaps, ws) != "" && Alnum(u, Laid(gaps, ws)[0])
  {
    if ws != [] && gaps[0] == "" {
      assert Laid(gaps, ws) == ws[0] + Laid(gaps[1..], ws[1..]);
    }
  }

  /** The same letter or digit: case does not count, and YO is YE. */
  predicate SameLetter(u: Unicode, c: char, d: char) {
    var a, b := u.lower(c), u.lower(d);
    a == b || (a == YO && b == YE) || (a == YE && b == YO)
  }

  predicate SameWord(u: Unicode, v: string, w: string) {
    |v| == |w| && forall i :: 0 <= i < |v| ==> SameLetter(u, v[i], w[i])
  }

  /** The same words, one by one. */
  predicate SameWords(u: Unicode, vs: seq<string>, ws: seq<string>) {
    |vs| == |ws| && forall i :: 0 <= i < |vs| ==> SameWord(u, vs[i], ws[i])
  }

  /** Two names fold to one text exactly when they have the same words. */
  lemma FoldedAgrees(u: Unicode, s: string, t: string)
    requires UnicodeOk(u)
    ensures Folded(u, s) == Folded(u, t) <==> SameWords(u, Words(u, s), Words(u, t))
  {
    var vs, ws := Words(u, s), Words(u, t);
    WordsAreWords(u, s);
    WordsAreWords(u, t);
    FoldWordsAreWords(u, vs);
    FoldWordsAreWords(u, ws);
    WordsOfJoin(u, FoldWords(u, vs));
    WordsOfJoin(u, FoldWords(u, ws));
    forall v, w
      ensures FoldWord(u, v) == FoldWord(u, w) <==> SameWord(u, v, w)
    {
      FoldWordAgrees(u, v, w);
    }
    if SameWords(u, vs, ws) {
      assert FoldWords(u, vs) == FoldWords(u, ws);
    }
    if Folded(u, s) == Folded(u, t) {
      assert FoldWords(u, vs) == FoldWords(u, ws);
      forall i | 0 <= i < |vs|
        ensures SameWord(u, vs[i], ws[i])
      {
        assert FoldWords(u, vs)[i] == FoldWords(u, ws)[i];
      }
    }
  }

  lemma FoldWordAgrees(u: Unicode, v: string, w: string)
    ensures FoldWord(u, v) == FoldWord(u, w) <==> SameWord(u, v, w)
  {
    if FoldWord(u, v) == FoldWord(u, w) {
      assert forall i :: 0 <= i < |v| ==> FoldChar(u, v[i]) == FoldChar(u, w[i]);
    }
  }

  /** A folded name has no spaces around it. */
  lemma FoldedIsTrimmed(u: Unicode, s: string)
    requires UnicodeOk(u)
    ensures Trimmed(u, Folded(u, s), Folded(u, s))
  {
    var ws := FoldWords(u, Words(u, s));
    WordsAreWords(u, s);
    FoldWordsAreWords(u, Words(u, s));
    JoinEnds(u, ws);
    TrimmedAlready(u, Folded(u, s));
  }

  lemma TrimmedAlready(u: Unicode, s: string)
    requires UnicodeOk(u) && (s != "" ==> Alnum(u, s[0]) && Alnum(u, s[|s| - 1]))
    ensures Trimmed(u, s, s)
  {
    assert s == "" + s + "" && Blank(u, "");
  }

  lemma {:induction false} JoinEnds(u: Unicode, ws: seq<string>)
    requires AreWords(u, ws)
    ensures var s := JoinWords(ws);
      s != "" ==> Alnum(u, s[0]) && Alnum(u, s[|s| - 1])
  {
    if |ws| > 1 {
      JoinEnds(u, ws[1..]);
      JoinNotEmpty(u, ws[1..]);
      assert JoinWords(ws)[0] == ws[0][0];
    }
  }

  lemma JoinNotEmpty(u: Unicode, ws: seq<string>)
    requires AreWords(u, ws) && ws != []
    ensures JoinWords(ws) != ""
  {
  }

  // ----- codes and field texts -----

  /** A code keeps its letters, digits, points and dashes, in lower case and in their order. */
  lemma CodeExact(u: Unicode, a: string, b: string, c: char)
    ensures FoldedCode(u, "") == ""
    ensures FoldedCode(u, a + b) == FoldedCode(u, a) + FoldedCode(u, b)
    ensures FoldedCode(u, [c]) == if u.isLetter(c) || u.isDigit(c) || c == '.' || c == '-' then [u.lower(c)] else ""
  {
    FoldedCodeAppend(u, a, b);
    assert [c][1..] == "";
  }

  /** Whole numbers have one text, whatever type holds them. */
  ghost predicate WholeTexts(n: Numbers) {
    forall i: int {:trigger n.itoa(i)} :: n.text(i as real) == n.itoa(i)
  }

  /** The text of a field: nothing, the text without the spaces around it, or the text of its number. */
  lemma FieldTextExact(e: Env, p: map<string, Value>, f: string)
    requires WholeTexts(e.n)
    ensures f !in p || p[f] == Tree(Null) ==> FieldText(e, p, f) == ""
    ensures f in p && p[f].Tree? && p[f].j.Str? ==> Trimmed(e.u, p[f].j.s, FieldText(e, p, f))
    ensures forall x :: f in p && Worth(e, p[f], x) ==> FieldText(e, p, f) == e.n.text(x)
    ensures f in p && p[f].Tree? && p[f].j.Bool? ==> FieldText(e, p, f) == if p[f].j.b then "true" else "false"
  {
    if f in p && p[f].Tree? && p[f].j.Str? {
      TrimExact(e.u, p[f].j.s, FieldText(e, p, f));
    }
    if f in p && p[f].Int? {
      assert e.n.text(p[f].i as real) == e.n.itoa(p[f].i);
    }
  }

  /** The text of the first of the fields that has one. */
  ghost predicate FirstFilled(e: Env, p: map<string, Value>, fields: seq<string>, t: string) {
    || (t == "" && forall k :: 0 <= k < |fields| ==> FieldText(e, p, fields[k]) == "")
    || exists k :: 0 <= k < |fields| && FieldText(e, p, fields[k]) == t != "" &&
         forall j :: 0 <= j < k ==> FieldText(e, p, fields[j]) == ""
  }

  lemma {:induction false} FirstTextFilled(e: Env, p: map<string, Value>, fields: seq<string>)
    ensures FirstFilled(e, p, fields, FirstText(e, p, fields))
  {
    if fields != [] && FieldText(e, p, fields[0]) == "" {
      var rest, t := fields[1..], FirstText(e, p, fields);
      FirstTextFilled(e, p, rest);
      if t == "" {
        assert forall k :: 0 < k < |fields| ==> fields[k] == rest[k - 1];
      } else {
        var k :| 0 <= k < |rest| && FieldText(e, p, rest[k]) == t && forall j :: 0 <= j < k ==> FieldText(e, p, rest[j]) == "";
        assert forall j :: 0 < j <= k ==> fields[j] == rest[j - 1];
        assert fields[k + 1] == rest[k];
      }
    }
  }

  lemma FirstTextExact(e: Env, p: map<string, Value>, fields: seq<string>, t: string)
    ensures FirstFilled(e, p, fields, t) <==> t == FirstText(e, p, fields)
  {
    FirstTextFilled(e, p, fields);
  }

  // ----- the key -----

  /** The folded texts of the fields that qualify a subject. */
  function QualifierTexts(e: Env, p: map<string, Value>, fields: seq<string>): (r: seq<string>)
    ensures |r| == |fields| && forall i :: 0 <= i < |fields| ==> r[i] == Folded(e.u, FieldText(e, p, fields[i]))
  {
    if fields == [] then [] else [Folded(e.u, FieldText(e, p, fields[0]))] + QualifierTexts(e, p, fields[1..])
  }

  /** A subject and its qualifiers stand one after the other with single spaces between them. */
  lemma {:induction false} QualifiedJoins(e: Env, p: map<string, Value>, subject: string, fields: seq<string>)
    ensures Qualified(e, p, subject, fields) == JoinWords([subject] + QualifierTexts(e, p, fields))
    decreases |fields|
  {
    if fields == [] {
      assert [subject] + QualifierTexts(e, p, fields) == [subject];
    } else {
      var q, rest := Folded(e.u, FieldText(e, p, fields[0])), QualifierTexts(e, p, fields[1..]);
      QualifiedJoins(e, p, subject + " " + q, fields[1..]);
      assert [subject] + QualifierTexts(e, p, fields) == [subject] + ([q] + rest);
      JoinTwo(subject, q, rest);
    }
  }

  lemma JoinTwo(a: string, b: string, rest: seq<string>)
    ensures JoinWords([a] + ([b] + rest)) == JoinWords([a + " " + b] + rest)
  {
    assert ([a] + ([b] + rest))[1..] == [b] + rest && ([b] + rest)[1..] == rest && ([a + " " + b] + rest)[1..] == rest;
    if rest == [] {
      assert [b] + rest == [b] && [a + " " + b] + rest == [a + " " + b];
    } else {
      assert a + " " + (b + " " + JoinWords(rest)) == a + " " + b + " " + JoinWords(rest);
    }
  }

  /** A period of two dates, as soon as one of them is filled in; otherwise the first field that is. */
  ghost predicate PeriodTells(e: Env, p: map<string, Value>, f: KeyFields, period: string) {
    var start, end := FoldedCode(e.u, FieldText(e, p, f.periodStart)), FoldedCode(e.u, FieldText(e, p, f.periodEnd));
    if f.periodStart != "" && (start != "" || end != "") then period == start + ".." + end
    else exists t :: FirstFilled(e, p, f.period, t) && period == FoldedCode(e.u, t)
  }

  /** What the five parts of a key are told from. */
  ghost predicate KeyTells(e: Env, r: Record, f: KeyFields, qualifiers: seq<string>, key: Key) {
    && key.category == r.category
    && (exists t :: FirstFilled(e, r.payload, f.specialty, t) && key.specialty == FoldedCode(e.u, t))
    && (exists t :: FirstFilled(e, r.payload, f.person, t) && key.person == Folded(e.u, t))
    && (exists t :: FirstFilled(e, r.payload, f.subject, t)
          && Trimmed(e.u, JoinWords([Folded(e.u, t)] + QualifierTexts(e, r.payload, qualifiers)), key.subject))
    && PeriodTells(e, r.payload, f, key.period)
  }

  lemma PeriodExact(e: Env, p: map<string, Value>, f: KeyFields, period: string)
    ensures PeriodTells(e, p, f, period) <==> period == Period(e, p, f)
  {
    forall t
      ensures FirstFilled(e, p, f.period, t) <==> t == FirstText(e, p, f.period)
    {
      FirstTextExact(e, p, f.period, t);
    }
  }

  lemma KeyFromTells(e: Env, r: Record, f: KeyFields, key: Key)
    ensures KeyTells(e, r, f, Qualifiers(e.k, r.category), key) <==> key == KeyFrom(e, r, f)
  {
    var qualifiers := Qualifiers(e.k, r.category);
    forall t
      ensures FirstFilled(e, r.payload, f.specialty, t) <==> t == FirstText(e, r.payload, f.specialty)
      ensures FirstFilled(e, r.payload, f.person, t) <==> t == FirstText(e, r.payload, f.person)
      ensures FirstFilled(e, r.payload, f.subject, t) <==> t == FirstText(e, r.payload, f.subject)
    {
      FirstTextExact(e, r.payload, f.specialty, t);
      FirstTextExact(e, r.payload, f.person, t);
      FirstTextExact(e, r.payload, f.subject, t);
    }
    var subject := Folded(e.u, FirstText(e, r.payload, f.subject));
    QualifiedJoins(e, r.payload, subject, qualifiers);
    TrimExact(e.u, JoinWords([subject] + QualifierTexts(e, r.payload, qualifiers)), key.subject);
    PeriodExact(e, r.payload, f, key.period);
  }

  /**
   A record has this key exactly when its category has rules, the key tells what their fields say, and
   it names a person or a subject.
   */
  lemma KeyOfExact(e: Env, r: Record, key: Key)
    ensures KeyOf(e, r) == Ok(key) <==>
      && r.category in e.k.fields
      && KeyTells(e, r, e.k.fields[r.category], Qualifiers(e.k, r.category), key)
      && (key.person != "" || key.subject != "")
    ensures KeyOf(e, r) == Err(Container.UnknownCategory) <==> r.category !in e.k.fields
  {
    if r.category in e.k.fields {
      KeyFromTells(e, r, e.k.fields[r.category], key);
    }
  }

  // ----- when two records have one key -----

  /** The subject with its qualifiers, as the key shows it. */
  ghost predicate SubjectTells(e: Env, r: Record, f: KeyFields, s: string) {
    exists t :: FirstFilled(e, r.payload, f.subject, t)
      && Trimmed(e.u, JoinWords([Folded(e.u, t)] + QualifierTexts(e, r.payload, Qualifiers(e.k, r.category))), s)
  }

  /** The parts that two records of one category have to agree in. */
  ghost predicate SameParts(e: Env, r: Record, q: Record, f: KeyFields) {
    && FoldedCode(e.u, FirstText(e, r.payload, f.specialty)) == FoldedCode(e.u, FirstText(e, q.payload, f.specialty))
    && SameWords(e.u, Words(e.u, FirstText(e, r.payload, f.person)), Words(e.u, FirstText(e, q.payload, f.person)))
    && (exists s :: SubjectTells(e, r, f, s) && SubjectTells(e, q, f, s))
    && exists s :: PeriodTells(e, r.payload, f, s) && PeriodTells(e, q.payload, f, s)
  }

  lemma SubjectExact(e: Env, r: Record, f: KeyFields, s: string)
    ensures SubjectTells(e, r, f, s) <==> s == KeyFrom(e, r, f).subject
  {
    var qualifiers := Qualifiers(e.k, r.category);
    forall t
      ensures FirstFilled(e, r.payload, f.subject, t) <==> t == FirstText(e, r.payload, f.subject)
    {
      FirstTextExact(e, r.payload, f.subject, t);
    }
    var subject := Folded(e.u, FirstText(e, r.payload, f.subject));
    QualifiedJoins(e, r.payload, subject, qualifiers);
    TrimExact(e.u, JoinWords([subject] + QualifierTexts(e, r.payload, qualifiers)), s);
  }

  /** Where nothing qualifies the subject, it is its words that count. */
  lemma PlainSubjects(e: Env, r: Record, q: Record, f: KeyFields)
    requires UnicodeOk(e.u) && Qualifiers(e.k, r.category) == [] && Qualifiers(e.k, q.category) == []
    ensures (exists s :: SubjectTells(e, r, f, s) && SubjectTells(e, q, f, s)) <==>
      SameWords(e.u, Words(e.u, FirstText(e, r.payload, f.subject)), Words(e.u, FirstText(e, q.payload, f.subject)))
  {
    forall s
      ensures SubjectTells(e, r, f, s) <==> s == Folded(e.u, FirstText(e, r.payload, f.subject))
      ensures SubjectTells(e, q, f, s) <==> s == Folded(e.u, FirstText(e, q.payload, f.subject))
    {
      PlainSubject(e, r, f, s);
      PlainSubject(e, q, f, s);
    }
    assert SubjectTells(e, r, f, Folded(e.u, FirstText(e, r.payload, f.subject)));
    FoldedAgrees(e.u, FirstText(e, r.payload, f.subject), FirstText(e, q.payload, f.subject));
  }

  lemma PlainSubject(e: Env, r: Record, f: KeyFields, s: string)
    requires UnicodeOk(e.u) && Qualifiers(e.k, r.category) == []
    ensures SubjectTells(e, r, f, s) <==> s == Folded(e.u, FirstText(e, r.payload, f.subject))
  {
    var subject := Folded(e.u, FirstText(e, r.payload, f.subject));
    SubjectExact(e, r, f, s);
    FoldedIsTrimmed(e.u, FirstText(e, r.payload, f.subject));
    TrimExact(e.u, subject, subject);
    assert KeyFrom(e, r, f).subject == Trim(e.u, subject);
  }

  lemma SamePartsSameKey(e: Env, r: Record, q: Record, f: KeyFields)
    requires UnicodeOk(e.u) && r.category == q.category
    ensures KeyFrom(e, r, f) == KeyFrom(e, q, f) <==> SameParts(e, r, q, f)
  {
    var a, b := KeyFrom(e, r, f), KeyFrom(e, q, f);
    FoldedAgrees(e.u, FirstText(e, r.payload, f.person), FirstText(e, q.payload, f.person));
    forall s
      ensures SubjectTells(e, r, f, s) <==> s == a.subject
      ensures SubjectTells(e, q, f, s) <==> s == b.subject
      ensures PeriodTells(e, r.payload, f, s) <==> s == a.period
      ensures PeriodTells(e, q.payload, f, s) <==> s == b.period
    {
      SubjectExact(e, r, f, s);
      SubjectExact(e, q, f, s);
      PeriodExact(e, r.payload, f, s);
      PeriodExact(e, q.payload, f, s);
    }
    assert SubjectTells(e, r, f, a.subject) && PeriodTells(e, r.payload, f, a.period);
  }

  /**
   Two records have one key exactly when they are of one category and agree in the code of their
   specialty, the words of their person, their subject with its qualifiers, and their period.
   */
  lemma SameKeyExactly(e: Env, r: Record, q: Record)
    requires UnicodeOk(e.u) && KeyOf(e, r).Ok? && KeyOf(e, q).Ok?
    ensures KeyOf(e, r) == KeyOf(e, q) <==> r.category == q.category && SameParts(e, r, q, e.k.fields[r.category])
  {
    if r.category == q.category {
      SamePartsSameKey(e, r, q, e.k.fields[r.category]);
    }
  }

  // ----- the rules of the program -----

  /** The fields of each category by name, and those that qualify its subject. */
  function Row(category: string): Option<(KeyFields, seq<string>)> {
    match category
    case "teachers" => Some((
      KeyFields(["teacher_full_name"], ["specialty_code", "training_direction"], ["course_name"], ["semester"], "", ""), []))
    case "internship" => Some((
      KeyFields(["student_full_name"], ["specialty_code"], ["course"], ["period"], "period_start", "period_end"), []))
    case "employment_practice" => Some((
      KeyFields(["student_full_name"], ["specialty_code"], ["course"], ["period"], "period_start", "period_end"), []))
    case "ood_rpd" => Some((
      KeyFields(["expert_full_name"], ["specialty_code"], ["program_name"], [], "", ""), ["doc_type", "activity_type"]))
    case "top_it" => Some((KeyFields([], [], ["project_name", "program_name"], ["program_wave"], "", ""), []))
    case "it_clubs" => Some((KeyFields(["employee_full_name"], [], ["program_name"], [], "", ""), []))
    case "teacher_training" => Some((KeyFields([], [], ["program_name"], [], "", ""), []))
    case "edu_content" => Some((
      KeyFields([], [], ["platform_name"], [], "digital_trace_period_start", "digital_trace_period_end"), []))
    case "minc_decision" => Some((KeyFields([], [],
      ["decision_number", "decision_reference", "instruction_reference"], ["implementation_start"], "", ""), []))
    case _ => None
  }

  lemma StandardRows(category: string)
    ensures category in STANDARD_RULES.fields <==> Row(category).Some?
    ensures Row(category).Some? ==>
      && STANDARD_RULES.fields[category] == Row(category).value.0
      && Qualifiers(STANDARD_RULES, category) == Row(category).value.1
  {
    assert STANDARD_RULES.qualifiers == map["ood_rpd" := ["doc_type", "activity_type"]];
  }

  /** The keys of the program's own categories. */
  lemma StandardKey(e: Env, r: Record, key: Key)
    requires e.k == STANDARD_RULES
    ensures KeyOf(e, r) == Ok(key) <==>
      && Row(r.category).Some?
      && KeyTells(e, r, Row(r.category).value.0, Row(r.category).value.1, key)
      && (key.person != "" || key.subject != "")
  {
    StandardRows(r.category);
    KeyOfExact(e, r, key);
  }

  /** The field that names the person of a record, where its category has one. */
  function PersonField(category: string): Option<string> {
    match category
    case "teachers" => Some("teacher_full_name")
    case "internship" => Some("student_full_name")
    case "employment_practice" => Some("student_full_name")
    case "ood_rpd" => Some("expert_full_name")
    case "it_clubs" => Some("employee_full_name")
    case _ => None
  }

  lemma PersonRow(e: Env, r: Record)
    requires PersonField(r.category).Some?
    ensures Row(r.category).Some?
    ensures FirstText(e, r.payload, Row(r.category).value.0.person) == FieldText(e, r.payload, PersonField(r.category).value)
  {
  }

  /** Two records that name different persons never have one key, whatever else they share. */
  lemma PersonsApart(e: Env, r: Record, q: Record)
    requires e.k == STANDARD_RULES && UnicodeOk(e.u) && KeyOf(e, r).Ok? && KeyOf(e, q).Ok?
    requires r.category == q.category && PersonField(r.category).Some?
    requires var field := PersonField(r.category).value;
      !SameWords(e.u, Words(e.u, FieldText(e, r.payload, field)), Words(e.u, FieldText(e, q.payload, field)))
    ensures KeyString(KeyOf(e, r).value) != KeyString(KeyOf(e, q).value)
  {
    StandardRows(r.category);
    PersonRow(e, r);
    PersonRow(e, q);
    SameKeyExactly(e, r, q);
    StandardRulesOk();
    if KeyString(KeyOf(e, r).value) == KeyString(KeyOf(e, q).value) {
      KeyStringInjective(e, r, q);
    }
  }

  // ----- a subject and its qualifiers run together -----

  const LONG_NAME := Record("ood_rpd", "", "", map["program_name" := Tree(Str("a b"))])
  const SHORT_NAME := Record("ood_rpd", "", "", map["program_name" := Tree(Str("a")), "doc_type" := Tree(Str("b"))])
  const ONE_KEY := Key("ood_rpd", "", "", "a b", "")

  /** Letters for the example: "a" and "b" are their own lower case. */
  ghost predicate PlainLetters(u: Unicode) {
    UnicodeOk(u) && u.isLetter('a') && u.isLetter('b') && u.lower('a') == 'a' && u.lower('b') == 'b'
  }

  lemma FoldLetters(u: Unicode)
    requires PlainLetters(u)
    ensures Folded(u, "") == "" && Folded(u, "a") == "a" && Folded(u, "b") == "b" && Folded(u, "a b") == "a b"
  {
    FoldLetter(u, "a");
    FoldLetter(u, "b");
    WordsOfLaid(u, ["", " ", ""], ["a", "b"]);
    LaidTwo();
    assert FoldWords(u, ["a", "b"]) == ["a", "b"];
    JoinOfTwo();
  }

  lemma FoldLetter(u: Unicode, w: string)
    requires PlainLetters(u) && (w == "a" || w == "b")
    ensures Folded(u, w) == w && FoldWord(u, w) == w
  {
    WordsOfLaid(u, ["", ""], [w]);
    assert Laid(["", ""], [w]) == w;
    assert FoldWord(u, w) == w;
    assert FoldWords(u, [w]) == [w];
  }

  lemma LaidTwo()
    ensures Laid(["", " ", ""], ["a", "b"]) == "a b"
  {
    assert ["", " ", ""][1..] == [" ", ""] && ["a", "b"][1..] == ["b"] && [" ", ""][1..] == [""] && ["b"][1..] == [];
    assert Laid([" ", ""], ["b"]) == " " + ("b" + Laid([""], []));
  }

  lemma JoinOfTwo()
    ensures JoinWords(["a", "b"]) == "a b"
  {
    assert ["a", "b"][1..] == ["b"];
  }

  lemma TrimLetters(u: Unicode, s: string, after: string)
    requires PlainLetters(u) && (s == "a" || s == "b" || s == "a b") && Blank(u, after)
    ensures Trimmed(u, s + after, s)
  {
    assert s + after == "" + s + after && Blank(u, "");
  }

  lemma FieldTextOfStr(e: Env, p: map<string, Value>, f: string, s: string)
    requires PlainLetters(e.u) && (s == "a" || s == "b" || s == "a b") && f in p && p[f] == Tree(Str(s))
    ensures FieldText(e, p, f) == s
  {
    TrimLetters(e.u, s, "");
    assert s + "" == s;
    TrimExact(e.u, s, s);
  }

  lemma NothingFilled(e: Env, p: map<string, Value>, fields: seq<string>)
    requires forall k :: 0 <= k < |fields| ==> fields[k] !in p
    ensures FirstFilled(e, p, fields, "")
  {
  }

  lemma NameFilled(e: Env, p: map<string, Value>, name: string)
    requires PlainLetters(e.u) && (name == "a" || name == "a b")
    requires "program_name" in p && p["program_name"] == Tree(Str(name))
    ensures FirstFilled(e, p, ["program_name"], name) && Folded(e.u, name) == name
  {
    FoldLetters(e.u);
    FieldTextOfStr(e, p, "program_name", name);
    var fields := ["program_name"];
    assert FieldText(e, p, fields[0]) == name;
  }

  /** The other parts are empty, so only the subject counts. */
  lemma OnlySubject(e: Env, r: Record, name: string, after: string)
    requires e.k == STANDARD_RULES && PlainLetters(e.u) && r.category == "ood_rpd" && (name == "a" || name == "a b")
    requires "program_name" in r.payload && r.payload["program_name"] == Tree(Str(name))
    requires "expert_full_name" !in r.payload && "specialty_code" !in r.payload
    requires JoinWords([name] + QualifierTexts(e, r.payload, ["doc_type", "activity_type"])) == "a b" + after && Blank(e.u, after)
    ensures KeyOf(e, r) == Ok(ONE_KEY)
  {
    NameFilled(e, r.payload, name);
    TrimLetters(e.u, "a b", after);
    NoOtherParts(e, r.payload);
    assert KeyTells(e, r, OOD_RPD_FIELDS, OOD_RPD_QUALIFIERS, ONE_KEY);
    OodKey(e, r);
  }

  lemma OodKey(e: Env, r: Record)
    requires e.k == STANDARD_RULES && r.category == "ood_rpd" && KeyTells(e, r, OOD_RPD_FIELDS, OOD_RPD_QUALIFIERS, ONE_KEY)
    ensures KeyOf(e, r) == Ok(ONE_KEY)
  {
    StandardKey(e, r, ONE_KEY);
  }

  lemma NoOtherParts(e: Env, p: map<string, Value>)
    requires PlainLetters(e.u) && "expert_full_name" !in p && "specialty_code" !in p
    ensures FirstFilled(e, p, ["specialty_code"], "") && FirstFilled(e, p, ["expert_full_name"], "")
    ensures FoldedCode(e.u, "") == "" && Folded(e.u, "") == ""
    ensures PeriodTells(e, p, OOD_RPD_FIELDS, "")
  {
    FoldLetters(e.u);
    NothingFilled(e, p, ["specialty_code"]);
    NothingFilled(e, p, ["expert_full_name"]);
    NothingFilled(e, p, []);
    assert FoldedCode(e.u, "") == "";
  }

  lemma JoinThree(a: string, b: string, c: string)
    ensures JoinWords([a] + [b, c]) == a + " " + (b + " " + c)
  {
    assert [a] + [b, c] == [a, b, c] && [a, b, c][1..] == [b, c] && [b, c][1..] == [c];
    assert JoinWords([c]) == c && JoinWords([b, c]) == b + " " + c;
  }

  lemma LongKey(e: Env)
    requires e.k == STANDARD_RULES && PlainLetters(e.u)
    ensures KeyOf(e, LONG_NAME) == Ok(ONE_KEY)
  {
    FoldLetters(e.u);
    assert QualifierTexts(e, LONG_NAME.payload, ["doc_type", "activity_type"]) == ["", ""];
    JoinThree("a b", "", "");
    assert "a b" + " " + ("" + " " + "") == "a b" + "  ";
    OnlySubject(e, LONG_NAME, "a b", "  ");
  }

  lemma ShortKey(e: Env)
    requires e.k == STANDARD_RULES && PlainLetters(e.u)
    ensures KeyOf(e, SHORT_NAME) == Ok(ONE_KEY)
  {
    FoldLetters(e.u);
    FieldTextOfStr(e, SHORT_NAME.payload, "doc_type", "b");
    assert QualifierTexts(e, SHORT_NAME.payload, ["doc_type", "activity_type"]) == ["b", ""];
    JoinThree("a", "b", "");
    assert "a" + " " + ("b" + " " + "") == "a b" + " ";
    OnlySubject(e, SHORT_NAME, "a", " ");
  }

  /** A program and a kind of document make the key of a program whose name ends like that. */
  lemma QualifiersRunTogether(e: Env)
    requires e.k == STANDARD_RULES && PlainLetters(e.u)
    ensures KeyOf(e, LONG_NAME).Ok? && KeyOf(e, LONG_NAME) == KeyOf(e, SHORT_NAME)
  {
    LongKey(e);
    ShortKey(e);
  }
}
