/**
 What the table parser accepts: a table read back is made of its own names, codes and titles
 and nothing else, and a table laid out in any of the permitted ways is read as it was meant.
 */
module TableTheorems {
  import opened Wrappers
  import opened TableParser
  import opened TableNames

  // ----- the layout of a table -----

  /** One organization as it stands in the text. */
  datatype Row = Row(nameText: string, codes: seq<string>, gaps: seq<string>, titles: seq<string>)

  function CodesText(codes: seq<string>, gaps: seq<string>): string {
    if codes == [] || gaps == [] then "" else codes[0] + (gaps[0] + CodesText(codes[1..], gaps[1..]))
  }

  function TitlesText(titles: seq<string>): string {
    if titles == [] then "" else titles[0] + TitlesText(titles[1..])
  }

  function RowText(row: Row): string {
    row.nameText + (CodesText(row.codes, row.gaps) + TitlesText(row.titles))
  }

  function TableText(rows: seq<Row>): string {
    if rows == [] then "" else RowText(rows[0]) + TableText(rows[1..])
  }

  /** A title, broken by blanks and soft hyphens in any way, up to its last letter. */
  predicate TitleOk(c: Chars, expected: string, s: string) {
    Compact(c, s) == Compact(c, expected) && s != "" && !Skipped(c, s[|s| - 1])
  }

  function RecordOf(c: Chars, row: Row): Record {
    Record(Collapse(c, row.nameText), Dedup(row.codes))
  }

  function RecordsOf(c: Chars, rows: seq<Row>): (rs: seq<Record>)
    ensures |rs| == |rows| && forall k :: 0 <= k < |rows| ==> rs[k] == RecordOf(c, rows[k])
  {
    if rows == [] then [] else [RecordOf(c, rows[0])] + RecordsOf(c, rows[1..])
  }

  /** Codes look like codes, and titles are not empty and do not begin with a digit. */
  ghost predicate ProgramsOk(c: Chars, p: Programs) {
    forall code :: code in p ==> CodeShaped(c, code) && TitleStart(c, p[code])
  }

  predicate TitleStart(c: Chars, title: string) {
    Compact(c, title) != "" && !c.digit(Compact(c, title)[0])
  }

  /** The text x stands at i. */
  predicate Stands(t: string, x: string, i: nat) {
    i + |x| <= |t| && t[i..i + |x|] == x
  }

  lemma StandsEnds(t: string, x: string, i: nat)
    requires Stands(t, x, i) && x != ""
    ensures t[i] == x[0] && t[i + |x| - 1] == x[|x| - 1]
  {
    assert t[i..i + |x|][0] == t[i] && t[i..i + |x|][|x| - 1] == t[i + |x| - 1];
  }

  lemma StandsTail(t: string, x: string, i: nat)
    requires Stands(t, x, i) && x != ""
    ensures Stands(t, x[1..], i + 1)
  {
    assert t[i..i + |x|][1..] == t[i + 1..i + |x|];
  }

  // ----- titles -----

  lemma {:induction false} TitleEndSound(c: Chars, t: string, i: nat, target: string, k: nat)
    requires i <= |t| && k <= |target| && TitleEnd(c, t, i, target, k).Ok?
    ensures var j := TitleEnd(c, t, i, target, k).value;
      Compact(c, t[i..j]) == target[k..] && (k < |target| ==> i < j && !Skipped(c, t[j - 1]))
    decreases |t| - i
  {
    if k < |target| {
      var j := TitleEnd(c, t, i, target, k).value;
      if Skipped(c, t[i]) {
        TitleEndSound(c, t, i + 1, target, k);
      } else {
        TitleEndSound(c, t, i + 1, target, k + 1);
        assert target[k..] == [target[k]] + target[k + 1..];
      }
      assert t[i..j][0] == t[i] && t[i..j][1..] == t[i + 1..j];
    }
  }

  lemma {:induction false} TitleEndReads(c: Chars, t: string, i: nat, target: string, k: nat, s: string)
    requires k <= |target| && Stands(t, s, i) && Compact(c, s) == target[k..]
    requires s != "" ==> !Skipped(c, s[|s| - 1])
    ensures TitleEnd(c, t, i, target, k) == Ok(i + |s|)
    decreases |s|
  {
    if s != "" {
      CompactNotEmpty(c, s);
      StandsEnds(t, s, i);
      StandsTail(t, s, i);
      if Skipped(c, s[0]) {
        TitleEndReads(c, t, i + 1, target, k, s[1..]);
      } else {
        assert target[k..][0] == target[k] && target[k..][1..] == target[k + 1..];
        TitleEndReads(c, t, i + 1, target, k + 1, s[1..]);
      }
    }
  }

  lemma {:induction false} CompactNotEmpty(c: Chars, s: string)
    requires s != "" && !Skipped(c, s[|s| - 1])
    ensures Compact(c, s) != ""
  {
    if Skipped(c, s[0]) {
      CompactNotEmpty(c, s[1..]);
    }
  }

  /** Blanks in front do not matter to the comparison. */
  lemma {:induction false} TitleEndSkips(c: Chars, t: string, i: nat, target: string)
    requires i <= |t| && target != ""
    ensures TitleEnd(c, t, SkipSpace(c, t, i), target, 0) == TitleEnd(c, t, i, target, 0)
    decreases |t| - i
  {
    if i < |t| && c.space(t[i]) {
      TitleEndSkips(c, t, i + 1, target);
    }
  }

  ghost predicate Startable(c: Chars, p: Programs, codes: seq<string>) {
    forall k :: 0 <= k < |codes| ==> codes[k] in p && TitleStart(c, p[codes[k]])
  }

  /** Titles one at a time; blanks before a title belong to it. */
  lemma TitlesStep(c: Chars, p: Programs, t: string, i: nat, codes: seq<string>)
    requires i <= |t| && codes != [] && Startable(c, p, codes)
    ensures var end := TitleEnd(c, t, i, Compact(c, p[codes[0]]), 0);
      Titles(c, p, t, i, codes) == if end.Ok? then Titles(c, p, t, end.value, codes[1..]) else Err(end.error)
  {
    TitleEndSkips(c, t, i, Compact(c, p[codes[0]]));
  }

  lemma OneTitleSound(c: Chars, t: string, i: nat, expected: string)
    requires i <= |t| && TitleStart(c, expected) && TitleEnd(c, t, i, Compact(c, expected), 0).Ok?
    ensures var j := TitleEnd(c, t, i, Compact(c, expected), 0).value;
      TitleOk(c, expected, t[i..j])
  {
    var target := Compact(c, expected);
    TitleEndSound(c, t, i, target, 0);
    assert target[0..] == target;
  }

  lemma OneTitleReads(c: Chars, t: string, i: nat, expected: string, s: string)
    requires TitleOk(c, expected, s) && Stands(t, s, i)
    ensures TitleEnd(c, t, i, Compact(c, expected), 0) == Ok(i + |s|)
  {
    var target := Compact(c, expected);
    assert target[0..] == target;
    TitleEndReads(c, t, i, target, 0, s);
  }

  /** Titles that stand one after the other from i to end. */
  ghost predicate TitlesStand(c: Chars, p: Programs, t: string, i: nat, codes: seq<string>, titles: seq<string>, end: nat)
    decreases |titles|
  {
    if codes == [] || titles == [] then codes == [] && titles == [] && i == end <= |t|
    else
      && codes[0] in p && TitleOk(c, p[codes[0]], titles[0]) && Stands(t, titles[0], i)
      && TitlesStand(c, p, t, i + |titles[0]|, codes[1..], titles[1..], end)
  }

  ghost predicate TitlesMet(c: Chars, p: Programs, t: string, i: nat, codes: seq<string>, end: nat) {
    && i <= |t| && (forall k :: 0 <= k < |codes| ==> codes[k] in p)
    && Titles(c, p, t, i, codes) == Ok(end)
  }

  lemma {:induction false} TitlesSound(c: Chars, p: Programs, t: string, i: nat, codes: seq<string>, end: nat)
    returns (titles: seq<string>)
    requires Startable(c, p, codes) && TitlesMet(c, p, t, i, codes, end)
    ensures TitlesStand(c, p, t, i, codes, titles, end)
    decreases |codes|
  {
    if codes == [] {
      titles := [];
    } else {
      TitlesStep(c, p, t, i, codes);
      OneTitleSound(c, t, i, p[codes[0]]);
      var j := TitleEnd(c, t, i, Compact(c, p[codes[0]]), 0).value;
      var more := TitlesSound(c, p, t, j, codes[1..], end);
      titles := [t[i..j]] + more;
      assert titles[1..] == more;
    }
  }

  lemma {:induction false} TitlesRead(
    c: Chars, p: Programs, t: string, i: nat, codes: seq<string>, titles: seq<string>, end: nat)
    requires Startable(c, p, codes) && TitlesStand(c, p, t, i, codes, titles, end)
    ensures TitlesMet(c, p, t, i, codes, end)
    decreases |titles|
  {
    if codes != [] && titles != [] {
      OneTitleReads(c, t, i, p[codes[0]], titles[0]);
      TitlesStep(c, p, t, i, codes);
      TitlesRead(c, p, t, i + |titles[0]|, codes[1..], titles[1..], end);
    }
  }

  // ----- codes -----

  /** Codes and the gaps after them, one after the other from i to end. */
  ghost predicate CodesStand(c: Chars, t: string, i: nat, codes: seq<string>, gaps: seq<string>, end: nat)
    decreases |codes|
  {
    if codes == [] || gaps == [] then codes == [] && gaps == [] && i == end <= |t|
    else
      && Stands(t, codes[0], i) && Stands(t, gaps[0], i + |codes[0]|) && Blank(c, gaps[0])
      && CodesStand(c, t, i + |codes[0]| + |gaps[0]|, codes[1..], gaps[1..], end)
  }

  lemma {:induction false} SkipsBlanks(c: Chars, t: string, i: nat)
    requires i <= |t|
    ensures Blank(c, t[i..SkipSpace(c, t, i)])
    decreases |t| - i
  {
    if i < |t| && c.space(t[i]) {
      SkipsBlanks(c, t, i + 1);
      assert t[i..SkipSpace(c, t, i)] == [t[i]] + t[i + 1..SkipSpace(c, t, i)];
    }
  }

  ghost predicate RunFound(c: Chars, p: Programs, t: string, at: nat, codes: seq<string>, mid: nat) {
    CodeAt(c, t, at) && CodeRun(c, p, t, at) == Ok(Codes(codes, mid))
  }

  lemma {:induction false} CodeRunSound(c: Chars, p: Programs, t: string, i: nat, codes: seq<string>, end: nat)
    returns (gaps: seq<string>)
    requires RunFound(c, p, t, i, codes, end)
    ensures CodesStand(c, t, i, codes, gaps, end)
    decreases |t| - i
  {
    var next := SkipSpace(c, t, i + 8);
    var gap := t[i + 8..next];
    SkipsBlanks(c, t, i + 8);
    if CodeAt(c, t, next) {
      var more := CodeRunSound(c, p, t, next, codes[1..], end);
      gaps := [gap] + more;
      assert gaps[1..] == more;
    } else {
      gaps := [gap];
      assert gaps[1..] == [] && codes[1..] == [];
    }
  }

  /** Codes with blanks between them; after the last there may be none. */
  ghost predicate CodesPrinted(c: Chars, codes: seq<string>, gaps: seq<string>) {
    && |gaps| == |codes|
    && (forall k :: 0 <= k < |codes| ==> CodeShaped(c, codes[k]))
    && forall k :: 0 <= k < |gaps| - 1 ==> gaps[k] != ""
  }

  lemma SkipExactly(c: Chars, t: string, i: nat, gap: string)
    requires Stands(t, gap, i) && Blank(c, gap)
    requires i + |gap| < |t| ==> !c.space(t[i + |gap|])
    ensures SkipSpace(c, t, i) == i + |gap|
  {
    forall k | i <= k < i + |gap|
      ensures c.space(t[k])
    {
      assert t[i..i + |gap|][k - i] == t[k];
    }
    SkipsTo(c, t, i, i + |gap|);
  }

  lemma {:induction false} SkipsTo(c: Chars, t: string, i: nat, j: nat)
    requires i <= j <= |t| && (forall k :: i <= k < j ==> c.space(t[k])) && (j < |t| ==> !c.space(t[j]))
    ensures SkipSpace(c, t, i) == j
    decreases j - i
  {
    if i < j {
      SkipsTo(c, t, i + 1, j);
    }
  }

  /** The first code of a run stands where it was printed. */
  lemma CodeStands(c: Chars, t: string, i: nat, code: string, gap: string)
    requires CharsOk(c) && CodeShaped(c, code) && Blank(c, gap)
    requires Stands(t, code, i) && Stands(t, gap, i + 8)
    requires i > 0 ==> !c.digit(t[i - 1])
    requires gap == "" && i + 8 < |t| ==> !c.digit(t[i + 8])
    ensures CodeAt(c, t, i)
  {
    if gap != "" {
      StandsEnds(t, gap, i + 8);
    }
  }

  lemma NoCodeHere(c: Chars, t: string, i: nat)
    requires i < |t| ==> !c.digit(t[i])
    ensures !CodeAt(c, t, i)
  {
    if i + 8 <= |t| {
      assert t[i..i + 8][0] == t[i];
    }
  }

  /** One more code in front of a run, or the only one. */
  lemma RunFoundCons(c: Chars, p: Programs, t: string, i: nat, codes: seq<string>, mid: nat)
    requires CodeAt(c, t, i) && codes != [] && t[i..i + 8] == codes[0] && codes[0] in p
    requires var next := SkipSpace(c, t, i + 8);
      if |codes| == 1 then mid == next && !CodeAt(c, t, next) else RunFound(c, p, t, next, codes[1..], mid)
    ensures RunFound(c, p, t, i, codes, mid)
  {
    assert codes == [codes[0]] + codes[1..];
    if |codes| == 1 {
      assert codes == [codes[0]];
    }
  }

  ghost predicate CanFollowCodes(c: Chars, t: string, end: nat) {
    end < |t| ==> !c.digit(t[end]) && !c.space(t[end])
  }

  /** The gap after a code that is not the last ends at the next code. */
  lemma GapBeforeCode(c: Chars, t: string, i: nat, gap: string, code: string)
    requires CharsOk(c) && Stands(t, gap, i) && Blank(c, gap) && gap != ""
    requires Stands(t, code, i + |gap|) && CodeShaped(c, code)
    ensures SkipSpace(c, t, i) == i + |gap| && !c.digit(t[i + |gap| - 1])
  {
    StandsEnds(t, gap, i);
    StandsEnds(t, code, i + |gap|);
    SkipExactly(c, t, i, gap);
  }

  ghost predicate NoDigitBefore(c: Chars, t: string, i: nat) {
    0 < i <= |t| ==> !c.digit(t[i - 1])
  }

  ghost predicate AllKnown(p: Programs, codes: seq<string>) {
    forall k :: 0 <= k < |codes| ==> codes[k] in p
  }

  lemma LastCodeReads(c: Chars, p: Programs, t: string, i: nat, code: string, gap: string)
    requires CharsOk(c) && CodeShaped(c, code) && code in p && Blank(c, gap)
    requires Stands(t, code, i) && Stands(t, gap, i + 8)
    requires NoDigitBefore(c, t, i) && CanFollowCodes(c, t, i + 8 + |gap|)
    ensures RunFound(c, p, t, i, [code], i + 8 + |gap|)
  {
    SkipExactly(c, t, i + 8, gap);
    CodeStands(c, t, i, code, gap);
    NoCodeHere(c, t, i + 8 + |gap|);
    RunFoundCons(c, p, t, i, [code], i + 8 + |gap|);
  }

  lemma CodeThenRun(c: Chars, p: Programs, t: string, i: nat, codes: seq<string>, gap: string, end: nat)
    requires CharsOk(c) && |codes| > 1 && CodeShaped(c, codes[0]) && codes[0] in p && Blank(c, gap) && gap != ""
    requires Stands(t, codes[0], i) && Stands(t, gap, i + 8) && Stands(t, codes[1], i + 8 + |gap|) && CodeShaped(c, codes[1])
    requires NoDigitBefore(c, t, i) && RunFound(c, p, t, i + 8 + |gap|, codes[1..], end)
    ensures RunFound(c, p, t, i, codes, end)
  {
    GapBeforeCode(c, t, i + 8, gap, codes[1]);
    CodeStands(c, t, i, codes[0], gap);
    RunFoundCons(c, p, t, i, codes, end);
  }

  lemma DigitlessGap(c: Chars, t: string, i: nat, gap: string)
    requires CharsOk(c) && Stands(t, gap, i) && Blank(c, gap) && gap != ""
    ensures NoDigitBefore(c, t, i + |gap|)
  {
    StandsEnds(t, gap, i);
  }

  /** Known codes printed from i to end, with no digit around them and no blank after them. */
  ghost predicate CodesReady(
    c: Chars, p: Programs, t: string, i: nat, codes: seq<string>, gaps: seq<string>, end: nat)
  {
    && codes != [] && AllKnown(p, codes) && CodesPrinted(c, codes, gaps) && CodesStand(c, t, i, codes, gaps, end)
    && NoDigitBefore(c, t, i) && CanFollowCodes(c, t, end)
  }

  lemma LastReady(c: Chars, p: Programs, t: string, i: nat, codes: seq<string>, gaps: seq<string>, end: nat)
    requires CharsOk(c) && CodesReady(c, p, t, i, codes, gaps, end) && |codes| == 1
    ensures RunFound(c, p, t, i, codes, end)
  {
    CodesStandParts(c, p, t, i, codes, gaps, end);
    LastCodeReads(c, p, t, i, codes[0], gaps[0]);
    assert codes == [codes[0]];
  }

  lemma ReadyTail(c: Chars, p: Programs, t: string, i: nat, codes: seq<string>, gaps: seq<string>, end: nat)
    requires CharsOk(c) && CodesReady(c, p, t, i, codes, gaps, end) && |codes| > 1
    ensures |gaps| == |codes| && CodesReady(c, p, t, i + 8 + |gaps[0]|, codes[1..], gaps[1..], end)
  {
    CodesStandParts(c, p, t, i, codes, gaps, end);
    DigitlessGap(c, t, i + 8, gaps[0]);
  }

  lemma ReadyCons(c: Chars, p: Programs, t: string, i: nat, codes: seq<string>, gaps: seq<string>, end: nat)
    requires CharsOk(c) && CodesReady(c, p, t, i, codes, gaps, end) && |codes| > 1
    requires |gaps| == |codes| && RunFound(c, p, t, i + 8 + |gaps[0]|, codes[1..], end)
    ensures RunFound(c, p, t, i, codes, end)
  {
    CodesStandParts(c, p, t, i, codes, gaps, end);
    CodeThenRun(c, p, t, i, codes, gaps[0], end);
  }

  /** Printed codes are read. */
  lemma {:induction false} CodesRead(
    c: Chars, p: Programs, t: string, i: nat, codes: seq<string>, gaps: seq<string>, end: nat)
    requires CharsOk(c) && CodesReady(c, p, t, i, codes, gaps, end)
    ensures RunFound(c, p, t, i, codes, end)
    decreases |codes|
  {
    if |codes| == 1 {
      LastReady(c, p, t, i, codes, gaps, end);
    } else {
      ReadyTail(c, p, t, i, codes, gaps, end);
      CodesRead(c, p, t, i + 8 + |gaps[0]|, codes[1..], gaps[1..], end);
      ReadyCons(c, p, t, i, codes, gaps, end);
    }
  }

  lemma CodesStandParts(
    c: Chars, p: Programs, t: string, i: nat, codes: seq<string>, gaps: seq<string>, end: nat)
    requires codes != [] && AllKnown(p, codes) && CodesPrinted(c, codes, gaps) && CodesStand(c, t, i, codes, gaps, end)
    ensures codes[0] in p && AllKnown(p, codes[1..])
    ensures CodeShaped(c, codes[0]) && Stands(t, codes[0], i) && Stands(t, gaps[0], i + 8) && Blank(c, gaps[0])
    ensures |codes| == 1 ==> end == i + 8 + |gaps[0]|
    ensures |codes| > 1 ==>
      && gaps[0] != "" && CodeShaped(c, codes[1]) && Stands(t, codes[1], i + 8 + |gaps[0]|)
      && CodesPrinted(c, codes[1..], gaps[1..])
      && CodesStand(c, t, i + 8 + |gaps[0]|, codes[1..], gaps[1..], end)
  {
    if |codes| > 1 {
      assert codes[1..][0] == codes[1];
    }
  }

  // ----- names -----

  /** No code inside the name, which ends with a blank. */
  predicate NamePrinted(c: Chars, nameText: string) {
    && nameText != "" && c.space(nameText[|nameText| - 1])
    && forall k :: 0 <= k < |nameText| ==> !CodeAt(c, nameText, k)
  }

  lemma CodeHasNoSpace(c: Chars, code: string, k: nat)
    requires CharsOk(c) && CodeShaped(c, code) && k < 8
    ensures !c.space(code[k])
  {
    assert k == 0 || k == 1 || k == 2 || k == 3 || k == 4 || k == 5 || k == 6 || k == 7;
  }

  lemma CodeInside(c: Chars, t: string, i: nat, nameText: string, k: nat)
    requires Stands(t, nameText, i) && k + 8 < |nameText|
    ensures CodeAt(c, t, i + k) ==> CodeAt(c, nameText, k)
  {
    forall m | k <= m <= k + 8
      ensures t[i + m] == nameText[m]
    {
      assert t[i..i + |nameText|][m] == t[i + m];
    }
    assert t[i + k..i + k + 8] == nameText[k..k + 8];
    assert k > 0 ==> t[i..i + |nameText|][k - 1] == t[i + k - 1];
  }

  lemma NoCodeInName(c: Chars, t: string, i: nat, nameText: string, j: nat)
    requires CharsOk(c) && Stands(t, nameText, i) && NamePrinted(c, nameText) && i <= j < i + |nameText|
    ensures !CodeAt(c, t, j)
  {
    var end := i + |nameText|;
    StandsEnds(t, nameText, i);
    if CodeAt(c, t, j) {
      if j + 8 >= end {
        assert t[j..j + 8][end - 1 - j] == t[end - 1];
        CodeHasNoSpace(c, t[j..j + 8], end - 1 - j);
      } else {
        CodeInside(c, t, i, nameText, j - i);
      }
    }
  }

  lemma {:induction false} FindsFirst(c: Chars, t: string, i: nat, at: nat)
    requires i <= at <= |t| && (at < |t| ==> CodeAt(c, t, at)) && forall j :: i <= j < at ==> !CodeAt(c, t, j)
    ensures FindCode(c, t, i) == if at < |t| then Some(at) else None
    decreases at - i
  {
    if i < at {
      FindsFirst(c, t, i + 1, at);
    }
  }

  ghost predicate NameFound(c: Chars, t: string, i: nat, nameText: string, at: nat) {
    i <= |t| && FindCode(c, t, i) == Some(at) && t[i..at] == nameText
  }

  lemma NameReads(c: Chars, t: string, i: nat, nameText: string, at: nat)
    requires CharsOk(c) && Stands(t, nameText, i) && NamePrinted(c, nameText)
    requires at == i + |nameText| && CodeAt(c, t, at)
    ensures NameFound(c, t, i, nameText, at)
  {
    forall j | i <= j < at
      ensures !CodeAt(c, t, j)
    {
      NoCodeInName(c, t, i, nameText, j);
    }
    FindsFirst(c, t, i, at);
  }

  // ----- a row -----

  /** A row that can be read: codes apart, a blank before the first, none at the start of the first title. */
  ghost predicate RowPrinted(c: Chars, row: Row) {
    && NamePrinted(c, row.nameText) && !Blank(c, row.nameText)
    && row.codes != [] && CodesPrinted(c, row.codes, row.gaps)
    && row.titles != [] && row.titles[0] != "" && !c.space(row.titles[0][0])
  }

  /** A row standing from i to end: the name up to at, the codes up to mid, then the titles. */
  ghost predicate RowStands(c: Chars, p: Programs, t: string, i: nat, row: Row, at: nat, mid: nat, end: nat) {
    && Stands(t, row.nameText, i) && at == i + |row.nameText| && row.codes != []
    && CodesStand(c, t, at, row.codes, row.gaps, mid)
    && TitlesStand(c, p, t, mid, row.codes, row.titles, end)
  }

  /** What the searches of the parser find at a row. */
  ghost predicate RowFound(c: Chars, p: Programs, t: string, i: nat, row: Row, at: nat, mid: nat, end: nat) {
    && NameFound(c, t, i, row.nameText, at) && Collapse(c, row.nameText) != ""
    && RunFound(c, p, t, at, row.codes, mid) && TitlesMet(c, p, t, mid, row.codes, end)
  }

  lemma TitleFirst(c: Chars, expected: string, s: string)
    requires CharsOk(c) && TitleStart(c, expected) && TitleOk(c, expected, s)
    ensures !c.digit(s[0])
  {
  }

  /** The character after the codes: neither a blank nor a digit. */
  lemma TitlesBegin(c: Chars, p: Programs, t: string, i: nat, row: Row, end: nat)
    requires CharsOk(c) && Startable(c, p, row.codes) && RowPrinted(c, row)
    requires TitlesStand(c, p, t, i, row.codes, row.titles, end)
    ensures CanFollowCodes(c, t, i)
  {
    TitleFirst(c, p[row.codes[0]], row.titles[0]);
    StandsEnds(t, row.titles[0], i);
  }

  lemma AfterName(c: Chars, t: string, i: nat, nameText: string)
    requires CharsOk(c) && Stands(t, nameText, i) && NamePrinted(c, nameText)
    ensures NoDigitBefore(c, t, i + |nameText|)
  {
    StandsEnds(t, nameText, i);
  }

  lemma RowReads(c: Chars, p: Programs, t: string, i: nat, row: Row, at: nat, mid: nat, end: nat)
    requires CharsOk(c) && Startable(c, p, row.codes) && RowPrinted(c, row)
    requires RowStands(c, p, t, i, row, at, mid, end)
    ensures RowFound(c, p, t, i, row, at, mid, end)
  {
    TitlesBegin(c, p, t, mid, row, end);
    AfterName(c, t, i, row.nameText);
    CodesRead(c, p, t, at, row.codes, row.gaps, mid);
    NameReads(c, t, i, row.nameText, at);
    CollapseBlank(c, row.nameText);
    TitlesRead(c, p, t, mid, row.codes, row.titles, end);
  }

  lemma RowSound(c: Chars, p: Programs, t: string, i: nat, nameText: string, codes: seq<string>, at: nat, mid: nat, end: nat)
    returns (row: Row)
    requires ProgramsOk(c, p) && NameFound(c, t, i, nameText, at) && Collapse(c, nameText) != "" && codes != []
    requires RunFound(c, p, t, at, codes, mid) && TitlesMet(c, p, t, mid, codes, end)
    ensures RowStands(c, p, t, i, row, at, mid, end) && row.nameText == nameText && row.codes == codes
  {
    var gaps := CodeRunSound(c, p, t, at, codes, mid);
    var titles := TitlesSound(c, p, t, mid, codes, end);
    row := Row(nameText, codes, gaps, titles);
  }

  // ----- the table -----

  lemma BlankHasNoCode(c: Chars, t: string, i: nat)
    requires CharsOk(c) && i <= |t| && Blank(c, t[i..])
    ensures FindCode(c, t, i) == None
  {
    forall j | i <= j < |t|
      ensures !CodeAt(c, t, j)
    {
      assert t[i..][j - i] == t[j];
      NoCodeHere(c, t, j);
    }
    FindsFirst(c, t, i, |t|);
  }

  lemma {:induction false} StripLeftBlank(c: Chars, s: string)
    requires Blank(c, s)
    ensures StripLeft(c, s) == ""
  {
    if s != "" {
      StripLeftBlank(c, s[1..]);
    }
  }

  /** What collapses to nothing is blank, and only that. */
  lemma CollapseBlank(c: Chars, s: string)
    requires CharsOk(c)
    ensures Collapse(c, s) == "" <==> Blank(c, s)
  {
    SpacedBlank(c, s);
    if Blank(c, Spaced(c, s)) {
      StripLeftBlank(c, Spaced(c, s));
    } else {
      StripKeeps(c, Spaced(c, s));
      StripRightKeeps(c, StripLeft(c, Spaced(c, s)));
    }
  }

  lemma {:induction false} SpacedBlank(c: Chars, s: string)
    requires CharsOk(c)
    ensures Blank(c, Spaced(c, s)) <==> Blank(c, s)
    decreases |s|
  {
    if s != "" {
      var n := if c.space(s[0]) then SkipSpace(c, s, 1) else 1;
      SpacedBlank(c, s[n..]);
      SkipsBlanks(c, s, 1);
      assert s == [s[0]] + s[1..n] + s[n..];
      assert Spaced(c, s)[1..] == Spaced(c, s[n..]);
      assert Spaced(c, s) == [Spaced(c, s)[0]] + Spaced(c, s[n..]);
    }
  }

  lemma {:induction false} StripKeeps(c: Chars, s: string)
    requires !Blank(c, s)
    ensures !Blank(c, StripLeft(c, s))
  {
    if c.space(s[0]) {
      StripKeeps(c, s[1..]);
    }
  }

  lemma {:induction false} StripRightKeeps(c: Chars, s: string)
    requires !Blank(c, s)
    ensures StripRight(c, s) != ""
  {
    if c.space(s[|s| - 1]) {
      StripRightKeeps(c, s[..|s| - 1]);
    }
  }

  /** Rows standing one after the other from i to end. */
  ghost predicate RowsStand(c: Chars, p: Programs, t: string, i: nat, rows: seq<Row>, end: nat)
    decreases |rows|
  {
    if rows == [] then i == end <= |t|
    else exists at: nat, mid: nat, next: nat ::
      RowStands(c, p, t, i, rows[0], at, mid, next) && RowsStand(c, p, t, next, rows[1..], end)
  }

  ghost predicate AllPrinted(c: Chars, rows: seq<Row>) {
    forall k :: 0 <= k < |rows| ==> RowPrinted(c, rows[k])
  }

  ghost predicate Accepted(c: Chars, p: Programs, t: string, i: nat, records: seq<Record>) {
    i <= |t| && Rows(c, p, t, i) == Ok(records)
  }

  /** One row of the parser, by what its searches found. */
  lemma RowsStep(c: Chars, p: Programs, t: string, i: nat, row: Row, at: nat, mid: nat, end: nat, more: seq<Record>)
    requires RowFound(c, p, t, i, row, at, mid, end) && Accepted(c, p, t, end, more)
    ensures Accepted(c, p, t, i, [RecordOf(c, row)] + more)
  {
  }

  lemma RowsEnd(c: Chars, p: Programs, t: string, i: nat)
    requires CharsOk(c) && i <= |t| && Blank(c, t[i..])
    ensures Accepted(c, p, t, i, [])
  {
    CollapseBlank(c, t[i..]);
    BlankHasNoCode(c, t, i);
  }

  /** Printed rows are read as the records they were printed from. */
  lemma {:induction false} RowsRead(c: Chars, p: Programs, t: string, i: nat, rows: seq<Row>, end: nat)
    requires CharsOk(c) && ProgramsOk(c, p) && AllPrinted(c, rows) && RowsStand(c, p, t, i, rows, end)
    requires end <= |t| && Blank(c, t[end..])
    ensures Accepted(c, p, t, i, RecordsOf(c, rows))
    decreases |rows|
  {
    if rows == [] {
      RowsEnd(c, p, t, i);
    } else {
      var at: nat, mid: nat, next: nat :|
        RowStands(c, p, t, i, rows[0], at, mid, next) && RowsStand(c, p, t, next, rows[1..], end);
      CodesKnown(c, p, t, mid, rows[0].codes, rows[0].titles, next);
      RowReads(c, p, t, i, rows[0], at, mid, next);
      RowsRead(c, p, t, next, rows[1..], end);
      RowsStep(c, p, t, i, rows[0], at, mid, next, RecordsOf(c, rows[1..]));
    }
  }

  lemma {:induction false} CodesKnown(
    c: Chars, p: Programs, t: string, i: nat, codes: seq<string>, titles: seq<string>, end: nat)
    requires ProgramsOk(c, p) && TitlesStand(c, p, t, i, codes, titles, end)
    ensures Startable(c, p, codes)
    decreases |titles|
  {
    if codes != [] && titles != [] {
      CodesKnown(c, p, t, i + |titles[0]|, codes[1..], titles[1..], end);
      assert forall k :: 0 < k < |codes| ==> codes[k] == codes[1..][k - 1];
    }
  }

  /** What an accepted row is made of. */
  lemma RowsPieces(c: Chars, p: Programs, t: string, i: nat, at: nat, records: seq<Record>)
    returns (codes: seq<string>, mid: nat, end: nat)
    requires Accepted(c, p, t, i, records) && FindCode(c, t, i) == Some(at)
    ensures i <= at <= |t| && Collapse(c, t[i..at]) != "" && NameFound(c, t, i, t[i..at], at) && codes != []
    ensures RunFound(c, p, t, at, codes, mid) && TitlesMet(c, p, t, mid, codes, end) && i < end
    ensures records != [] && records[0] == Record(Collapse(c, t[i..at]), Dedup(codes))
    ensures Accepted(c, p, t, end, records[1..])
  {
    var run := CodeRun(c, p, t, at).value;
    codes, mid := run.list, run.end;
    end := Titles(c, p, t, mid, codes).value;
    assert records == [Record(Collapse(c, t[i..at]), Dedup(codes))] + Rows(c, p, t, end).value;
  }

  /** The end of what was accepted: no code is left, and only blanks. */
  lemma RowsPiecesEnd(c: Chars, p: Programs, t: string, i: nat, records: seq<Record>)
    requires CharsOk(c) && Accepted(c, p, t, i, records) && FindCode(c, t, i) == None
    ensures records == [] && Blank(c, t[i..])
  {
    CollapseBlank(c, t[i..]);
  }

  ghost predicate AllNamed(c: Chars, rows: seq<Row>) {
    forall k :: 0 <= k < |rows| ==> !Blank(c, rows[k].nameText)
  }

  /** Rows that make up the rest of a text but for a blank tail, and the records they hold. */
  ghost predicate Holds(c: Chars, p: Programs, t: string, i: nat, rows: seq<Row>, end: nat, records: seq<Record>) {
    && RowsStand(c, p, t, i, rows, end) && end <= |t| && Blank(c, t[end..])
    && records == RecordsOf(c, rows) && AllNamed(c, rows)
  }

  lemma HoldsCons(
    c: Chars, p: Programs, t: string, i: nat, row: Row, at: nat, mid: nat, next: nat,
    rows: seq<Row>, end: nat, records: seq<Record>)
    requires RowStands(c, p, t, i, row, at, mid, next) && !Blank(c, row.nameText)
    requires Holds(c, p, t, next, rows, end, records)
    ensures Holds(c, p, t, i, [row] + rows, end, [RecordOf(c, row)] + records)
  {
    var all := [row] + rows;
    assert all[1..] == rows && RowStands(c, p, t, i, all[0], at, mid, next) && RowsStand(c, p, t, next, all[1..], end);
  }

  /** Accepted rows are names, codes and titles, one after the other, up to a blank tail. */
  lemma {:induction false} RowsSound(c: Chars, p: Programs, t: string, i: nat, records: seq<Record>)
    returns (rows: seq<Row>, end: nat)
    requires CharsOk(c) && ProgramsOk(c, p) && Accepted(c, p, t, i, records)
    ensures Holds(c, p, t, i, rows, end, records)
    decreases |t| - i
  {
    var at := FindCode(c, t, i);
    if at.None? {
      RowsPiecesEnd(c, p, t, i, records);
      rows, end := [], i;
    } else {
      var row, mid, next := FirstRow(c, p, t, i, at.value, records);
      var more;
      more, end := RowsSound(c, p, t, next, records[1..]);
      HoldsCons(c, p, t, i, row, at.value, mid, next, more, end, records[1..]);
      rows := [row] + more;
      assert records == [records[0]] + records[1..];
    }
  }

  lemma FirstRow(c: Chars, p: Programs, t: string, i: nat, at: nat, records: seq<Record>)
    returns (row: Row, mid: nat, next: nat)
    requires CharsOk(c) && ProgramsOk(c, p) && Accepted(c, p, t, i, records) && FindCode(c, t, i) == Some(at)
    ensures RowStands(c, p, t, i, row, at, mid, next) && !Blank(c, row.nameText) && i < next
    ensures records != [] && records[0] == RecordOf(c, row) && Accepted(c, p, t, next, records[1..])
  {
    var codes;
    codes, mid, next := RowsPieces(c, p, t, i, at, records);
    CollapseBlank(c, t[i..at]);
    row := RowSound(c, p, t, i, t[i..at], codes, at, mid, next);
  }

  // ----- standing in a text, and being the text -----

  lemma JoinCuts(t: string, i: nat, j: nat, k: nat)
    requires i <= j <= k <= |t|
    ensures t[i..k] == t[i..j] + t[j..k]
  {
  }

  lemma {:induction false} TitlesStandText(
    c: Chars, p: Programs, t: string, i: nat, codes: seq<string>, titles: seq<string>, end: nat)
    requires TitlesStand(c, p, t, i, codes, titles, end)
    ensures i <= end <= |t| && t[i..end] == TitlesText(titles)
    decreases |titles|
  {
    if codes != [] && titles != [] {
      var next := i + |titles[0]|;
      TitlesStandText(c, p, t, next, codes[1..], titles[1..], end);
      JoinCuts(t, i, next, end);
    }
  }

  lemma {:induction false} CodesStandText(c: Chars, t: string, i: nat, codes: seq<string>, gaps: seq<string>, end: nat)
    requires CodesStand(c, t, i, codes, gaps, end)
    ensures i <= end <= |t| && t[i..end] == CodesText(codes, gaps)
    decreases |codes|
  {
    if codes != [] && gaps != [] {
      var gap := i + |codes[0]|;
      var next := gap + |gaps[0]|;
      CodesStandText(c, t, next, codes[1..], gaps[1..], end);
      JoinCuts(t, gap, next, end);
      JoinCuts(t, i, gap, end);
    }
  }

  lemma RowStandsText(c: Chars, p: Programs, t: string, i: nat, row: Row, at: nat, mid: nat, end: nat)
    requires RowStands(c, p, t, i, row, at, mid, end)
    ensures i <= end <= |t| && t[i..end] == RowText(row)
  {
    CodesStandText(c, t, at, row.codes, row.gaps, mid);
    TitlesStandText(c, p, t, mid, row.codes, row.titles, end);
    JoinCuts(t, at, mid, end);
    JoinCuts(t, i, at, end);
  }

  /** Rows that stand one after the other are the text between: every character is of one name, code, gap or title. */
  lemma {:induction false} RowsStandText(c: Chars, p: Programs, t: string, i: nat, rows: seq<Row>, end: nat)
    requires RowsStand(c, p, t, i, rows, end)
    ensures i <= end <= |t| && t[i..end] == TableText(rows)
    decreases |rows|
  {
    if rows != [] {
      var at: nat, mid: nat, next: nat :|
        RowStands(c, p, t, i, rows[0], at, mid, next) && RowsStand(c, p, t, next, rows[1..], end);
      RowStandsText(c, p, t, i, rows[0], at, mid, next);
      RowsStandText(c, p, t, next, rows[1..], end);
      JoinCuts(t, i, next, end);
    }
  }

  /** A row by itself: as many gaps and titles as codes, the gaps blank, the titles those of the codes. */
  ghost predicate RowOk(c: Chars, p: Programs, row: Row) {
    && row.codes != [] && |row.gaps| == |row.codes| && |row.titles| == |row.codes|
    && (forall k :: 0 <= k < |row.codes| ==> Blank(c, row.gaps[k]))
    && (forall k :: 0 <= k < |row.codes| ==> row.codes[k] in p && TitleOk(c, p[row.codes[k]], row.titles[k]))
  }

  lemma CutAppend(t: string, i: nat, end: nat, x: string, y: string)
    requires i <= end <= |t| && t[i..end] == x + y
    ensures Stands(t, x, i) && t[i + |x|..end] == y
  {
    assert |t[i..end]| == |x| + |y|;
    assert t[i..end][..|x|] == x && t[i..end][|x|..] == y;
  }

  lemma {:induction false} TitlesTextStands(
    c: Chars, p: Programs, t: string, i: nat, codes: seq<string>, titles: seq<string>, end: nat)
    requires i <= end <= |t| && t[i..end] == TitlesText(titles) && |titles| == |codes|
    requires forall k :: 0 <= k < |codes| ==> codes[k] in p && TitleOk(c, p[codes[k]], titles[k])
    ensures TitlesStand(c, p, t, i, codes, titles, end)
    decreases |titles|
  {
    if titles != [] {
      CutAppend(t, i, end, titles[0], TitlesText(titles[1..]));
      TitlesTextStands(c, p, t, i + |titles[0]|, codes[1..], titles[1..], end);
    }
  }

  lemma {:induction false} CodesTextStands(c: Chars, t: string, i: nat, codes: seq<string>, gaps: seq<string>, end: nat)
    requires i <= end <= |t| && t[i..end] == CodesText(codes, gaps) && |gaps| == |codes|
    requires forall k :: 0 <= k < |gaps| ==> Blank(c, gaps[k])
    ensures CodesStand(c, t, i, codes, gaps, end)
    decreases |codes|
  {
    if codes != [] {
      var rest := CodesText(codes[1..], gaps[1..]);
      CutAppend(t, i, end, codes[0], gaps[0] + rest);
      CutAppend(t, i + |codes[0]|, end, gaps[0], rest);
      CodesTextStands(c, t, i + |codes[0]| + |gaps[0]|, codes[1..], gaps[1..], end);
    }
  }

  lemma RowTextStands(c: Chars, p: Programs, t: string, i: nat, row: Row, end: nat)
    requires i <= end <= |t| && t[i..end] == RowText(row) && RowOk(c, p, row)
    ensures exists at: nat, mid: nat :: RowStands(c, p, t, i, row, at, mid, end)
  {
    var codes, titles := CodesText(row.codes, row.gaps), TitlesText(row.titles);
    var at, mid := i + |row.nameText|, i + |row.nameText| + |codes|;
    CutAppend(t, i, end, row.nameText, codes + titles);
    CutAppend(t, at, end, codes, titles);
    CodesTextStands(c, t, at, row.codes, row.gaps, mid);
    TitlesTextStands(c, p, t, mid, row.codes, row.titles, end);
    assert RowStands(c, p, t, i, row, at, mid, end);
  }

  lemma {:induction false} TableTextStands(c: Chars, p: Programs, t: string, i: nat, rows: seq<Row>, end: nat)
    requires i <= end <= |t| && t[i..end] == TableText(rows) && forall k :: 0 <= k < |rows| ==> RowOk(c, p, rows[k])
    ensures RowsStand(c, p, t, i, rows, end)
    decreases |rows|
  {
    if rows != [] {
      var next := i + |RowText(rows[0])|;
      CutAppend(t, i, end, RowText(rows[0]), TableText(rows[1..]));
      RowTextStands(c, p, t, i, rows[0], next);
      TableTextStands(c, p, t, next, rows[1..], end);
    }
  }

  lemma {:induction false} StandingTitles(
    c: Chars, p: Programs, t: string, i: nat, codes: seq<string>, titles: seq<string>, end: nat)
    requires TitlesStand(c, p, t, i, codes, titles, end)
    ensures |titles| == |codes|
    ensures forall k :: 0 <= k < |codes| ==> codes[k] in p && TitleOk(c, p[codes[k]], titles[k])
    decreases |titles|
  {
    if codes != [] && titles != [] {
      StandingTitles(c, p, t, i + |titles[0]|, codes[1..], titles[1..], end);
      assert forall k :: 0 < k < |codes| ==> codes[k] == codes[1..][k - 1] && titles[k] == titles[1..][k - 1];
    }
  }

  lemma {:induction false} StandingGaps(c: Chars, t: string, i: nat, codes: seq<string>, gaps: seq<string>, end: nat)
    requires CodesStand(c, t, i, codes, gaps, end)
    ensures |gaps| == |codes| && forall k :: 0 <= k < |gaps| ==> Blank(c, gaps[k])
    decreases |codes|
  {
    if codes != [] && gaps != [] {
      StandingGaps(c, t, i + |codes[0]| + |gaps[0]|, codes[1..], gaps[1..], end);
      assert forall k :: 0 < k < |gaps| ==> gaps[k] == gaps[1..][k - 1];
    }
  }

  lemma {:induction false} StandingRows(c: Chars, p: Programs, t: string, i: nat, rows: seq<Row>, end: nat)
    requires RowsStand(c, p, t, i, rows, end)
    ensures forall k :: 0 <= k < |rows| ==> RowOk(c, p, rows[k])
    decreases |rows|
  {
    if rows != [] {
      var at: nat, mid: nat, next: nat :|
        RowStands(c, p, t, i, rows[0], at, mid, next) && RowsStand(c, p, t, next, rows[1..], end);
      StandingGaps(c, t, at, rows[0].codes, rows[0].gaps, mid);
      StandingTitles(c, p, t, mid, rows[0].codes, rows[0].titles, next);
      StandingRows(c, p, t, next, rows[1..], end);
      forall k | 0 < k < |rows|
        ensures RowOk(c, p, rows[k])
      {
        assert rows[k] == rows[1..][k - 1];
      }
    }
  }

  // ----- the two directions -----

  /** A text that is these rows and a blank tail, with nothing else between. */
  ghost predicate Layout(c: Chars, p: Programs, s: string, rows: seq<Row>, tail: string) {
    s == TableText(rows) + tail && Blank(c, tail) && forall k :: 0 <= k < |rows| ==> RowOk(c, p, rows[k])
  }

  lemma AcceptedIsLaidOut(c: Chars, p: Programs, t: string, i: nat, records: seq<Record>)
    requires CharsOk(c) && ProgramsOk(c, p) && Accepted(c, p, t, i, records)
    ensures exists rows, tail :: Layout(c, p, t[i..], rows, tail) && AllNamed(c, rows) && records == RecordsOf(c, rows)
  {
    var rows, end := RowsSound(c, p, t, i, records);
    RowsStandText(c, p, t, i, rows, end);
    StandingRows(c, p, t, i, rows, end);
    JoinCuts(t, i, end, |t|);
    assert t[i..] == t[i..|t|] && t[end..] == t[end..|t|];
    assert Layout(c, p, t[i..], rows, t[end..]);
  }

  lemma LaidOutIsAccepted(c: Chars, p: Programs, t: string, i: nat, rows: seq<Row>, tail: string)
    requires CharsOk(c) && ProgramsOk(c, p) && i <= |t| && Layout(c, p, t[i..], rows, tail) && AllPrinted(c, rows)
    ensures Accepted(c, p, t, i, RecordsOf(c, rows))
  {
    assert t[i..|t|] == t[i..];
    CutAppend(t, i, |t|, TableText(rows), tail);
    var end := i + |TableText(rows)|;
    assert t[end..|t|] == t[end..];
    TableTextStands(c, p, t, i, rows, end);
    RowsRead(c, p, t, i, rows, end);
  }

  /** The text from the table start is these rows and a blank tail. */
  ghost predicate LaidOut(c: Chars, p: Programs, marker: string, raw: string, rows: seq<Row>, tail: string) {
    var first := Find(Normal(raw), marker, 0);
    first.Some? && first.value <= |Normal(raw)| && Layout(c, p, Normal(raw)[first.value..], rows, tail)
  }

  /** What a row says: the words of its name with one space between them, and its codes, each where it first occurs. */
  ghost predicate Says(c: Chars, row: Row, r: Record) {
    && (exists gaps, ws :: Names(c, row.nameText, r.name, gaps, ws))
    && exists at :: Firsts(row.codes, r.codes, at)
  }

  ghost predicate AllSay(c: Chars, rows: seq<Row>, records: seq<Record>) {
    |rows| == |records| && forall k :: 0 <= k < |rows| ==> Says(c, rows[k], records[k])
  }

  lemma SaysExact(c: Chars, row: Row, r: Record)
    requires CharsOk(c)
    ensures Says(c, row, r) <==> r == RecordOf(c, row)
  {
    CollapseExact(c, row.nameText, r.name);
    DedupExact(row.codes, r.codes);
  }

  /**
   Nothing is skipped: an accepted text is rows that say the records returned and a blank
   tail, so that every character that is not blank is of one name, one code or one title.
   */
  lemma NothingSkipped(c: Chars, p: Programs, marker: string, raw: string, records: seq<Record>)
    requires CharsOk(c) && ProgramsOk(c, p) && Table(c, p, marker, raw) == Ok(records)
    ensures exists rows, tail ::
      LaidOut(c, p, marker, raw, rows, tail) && AllNamed(c, rows) && AllSay(c, rows, records)
  {
    var first := Find(Normal(raw), marker, 0).value;
    AcceptedIsLaidOut(c, p, Normal(raw), first, records);
    var rows, tail :| Layout(c, p, Normal(raw)[first..], rows, tail) && AllNamed(c, rows) && records == RecordsOf(c, rows);
    forall k | 0 <= k < |rows|
      ensures Says(c, rows[k], records[k])
    {
      SaysExact(c, rows[k], records[k]);
    }
    assert LaidOut(c, p, marker, raw, rows, tail);
  }

  /**
   The parser inverts every printing: names in any spacing, codes with any blanks between
   them, titles broken anywhere by blanks or soft hyphens, any newlines, any text before.
   */
  lemma TableRoundTrip(
    c: Chars, p: Programs, marker: string, raw: string, rows: seq<Row>, tail: string, records: seq<Record>)
    requires CharsOk(c) && ProgramsOk(c, p) && LaidOut(c, p, marker, raw, rows, tail) && AllPrinted(c, rows)
    requires AllSay(c, rows, records)
    ensures Table(c, p, marker, raw) == Ok(records)
  {
    LaidOutIsAccepted(c, p, Normal(raw), Find(Normal(raw), marker, 0).value, rows, tail);
    forall k | 0 <= k < |rows|
      ensures RecordOf(c, rows[k]) == records[k]
    {
      SaysExact(c, rows[k], records[k]);
    }
    assert RecordsOf(c, rows) == records;
  }
}
