/**
 The parser of the directory table: a cursor over the text of a PDF, with a name, a run of
 program codes and the titles of those programs for each organization.
 */
module TableParser {
  import opened Sequences
  import opened Wrappers

  /** Character classes of the regular expressions and of str.isspace. */
  datatype Chars = Chars(space: char -> bool, digit: char -> bool)

  const SOFT_HYPHEN := '\U{00AD}'
  const EN_DASH := '\U{2013}'

  ghost predicate CharsOk(c: Chars) {
    && (forall x :: c.space(x) ==> !c.digit(x) && x != '.' && x != '-' && x != EN_DASH && x != SOFT_HYPHEN)
    && c.space(' ') && !c.digit('.') && !c.digit('-') && !c.digit(SOFT_HYPHEN) && !c.digit(EN_DASH)
  }

  /** The titles of the programs by their codes. */
  type Programs = map<string, string>

  datatype Record = Record(name: string, codes: seq<string>)

  datatype ParseError = NoTableStart | UnparsedTail | EmptyName | UnknownCode(code: string) | WrongTitle | TruncatedTitle

  // ----- the pieces the cursor moves over -----

  /** Two digits, a point, two digits, a point, two digits, and no digit on either side. */
  predicate CodeShaped(c: Chars, s: string) {
    && |s| == 8 && s[2] == '.' && s[5] == '.'
    && c.digit(s[0]) && c.digit(s[1]) && c.digit(s[3]) && c.digit(s[4]) && c.digit(s[6]) && c.digit(s[7])
  }

  predicate CodeAt(c: Chars, t: string, i: nat) {
    && i + 8 <= |t| && CodeShaped(c, t[i..i + 8])
    && (i > 0 ==> !c.digit(t[i - 1])) && (i + 8 < |t| ==> !c.digit(t[i + 8]))
  }

  /** The search for a code from a position on. */
  function FindCode(c: Chars, t: string, i: nat): (r: Option<nat>)
    requires i <= |t|
    ensures r.Some? ==> i <= r.value && CodeAt(c, t, r.value)
    decreases |t| - i
  {
    if i == |t| then None else if CodeAt(c, t, i) then Some(i) else FindCode(c, t, i + 1)
  }

  function SkipSpace(c: Chars, t: string, i: nat): (j: nat)
    requires i <= |t|
    ensures i <= j <= |t|
    decreases |t| - i
  {
    if i < |t| && c.space(t[i]) then SkipSpace(c, t, i + 1) else i
  }

  predicate Skipped(c: Chars, x: char) {
    c.space(x) || x == SOFT_HYPHEN
  }

  function Dash(x: char): char {
    if x == EN_DASH then '-' else x
  }

  /** What of a text counts when titles are compared: no blanks, no soft hyphens, one kind of dash. */
  function Compact(c: Chars, s: string): string {
    if s == "" then ""
    else if Skipped(c, s[0]) then Compact(c, s[1..])
    else [Dash(s[0])] + Compact(c, s[1..])
  }

  /** Reads on from i until all of the target has been met, with k of its characters met already. */
  function TitleEnd(c: Chars, t: string, i: nat, target: string, k: nat): (r: Result<nat, ParseError>)
    requires i <= |t| && k <= |target|
    ensures r.Ok? ==> i <= r.value <= |t|
    decreases |t| - i
  {
    if k == |target| then Ok(i)
    else if i == |t| then Err(TruncatedTitle)
    else if Skipped(c, t[i]) then TitleEnd(c, t, i + 1, target, k)
    else if Dash(t[i]) == target[k] then TitleEnd(c, t, i + 1, target, k + 1)
    else Err(WrongTitle)
  }

  datatype Codes = Codes(list: seq<string>, end: nat)

  /** A run of codes with blanks between them, and the blanks after the last. */
  function CodeRun(c: Chars, p: Programs, t: string, i: nat): (r: Result<Codes, ParseError>)
    requires CodeAt(c, t, i)
    ensures r.Ok? ==> i + 8 <= r.value.end <= |t| && r.value.list != []
    ensures r.Ok? ==> forall k :: 0 <= k < |r.value.list| ==> r.value.list[k] in p
    decreases |t| - i
  {
    var code := t[i..i + 8];
    var next := SkipSpace(c, t, i + 8);
    if code !in p then Err(UnknownCode(code))
    else if !CodeAt(c, t, next) then Ok(Codes([code], next))
    else match CodeRun(c, p, t, next)
      case Err(x) => Err(x)
      case Ok(more) => Ok(Codes([code] + more.list, more.end))
  }

  function Titles(c: Chars, p: Programs, t: string, i: nat, codes: seq<string>): (r: Result<nat, ParseError>)
    requires i <= |t| && forall k :: 0 <= k < |codes| ==> codes[k] in p
    ensures r.Ok? ==> i <= r.value <= |t|
    decreases |codes|
  {
    if codes == [] then Ok(i)
    else match TitleEnd(c, t, SkipSpace(c, t, i), Compact(c, p[codes[0]]), 0)
      case Err(x) => Err(x)
      case Ok(j) => Titles(c, p, t, j, codes[1..])
  }

  /** Every run of blanks as one space. */
  function Spaced(c: Chars, s: string): string
    decreases |s|
  {
    if s == "" then ""
    else if c.space(s[0]) then " " + Spaced(c, s[SkipSpace(c, s, 1)..])
    else [s[0]] + Spaced(c, s[1..])
  }

  function StripLeft(c: Chars, s: string): string {
    if s != "" && c.space(s[0]) then StripLeft(c, s[1..]) else s
  }

  function StripRight(c: Chars, s: string): string {
    if s != "" && c.space(s[|s| - 1]) then StripRight(c, s[..|s| - 1]) else s
  }

  function Collapse(c: Chars, s: string): string {
    StripRight(c, StripLeft(c, Spaced(c, s)))
  }

  /** The first occurrence of each code, in order. */
  function Dedup(codes: seq<string>): seq<string> {
    if codes == [] then []
    else
      var last := |codes| - 1;
      if codes[last] in codes[..last] then Dedup(codes[..last]) else Dedup(codes[..last]) + [codes[last]]
  }

  // ----- the table -----

  /** The records from a position on. */
  function Rows(c: Chars, p: Programs, t: string, i: nat): Result<seq<Record>, ParseError>
    requires i <= |t|
    decreases |t| - i
  {
    match FindCode(c, t, i)
    case None => if Collapse(c, t[i..]) == "" then Ok([]) else Err(UnparsedTail)
    case Some(at) =>
      var name := Collapse(c, t[i..at]);
      if name == "" then Err(EmptyName)
      else match CodeRun(c, p, t, at)
        case Err(x) => Err(x)
        case Ok(run) =>
          match Titles(c, p, t, run.end, run.list)
          case Err(x) => Err(x)
          case Ok(end) => Cons(Record(name, Dedup(run.list)), Rows(c, p, t, end))
  }

  function Cons(r: Record, rest: Result<seq<Record>, ParseError>): Result<seq<Record>, ParseError> {
    match rest
    case Err(x) => Err(x)
    case Ok(rs) => Ok([r] + rs)
  }

  /** Newlines of all systems become one, and the no-break space a space. */
  function Normal(s: string): string {
    if s == "" then ""
    else if s[0] == '\r' then "\n" + Normal(if |s| > 1 && s[1] == '\n' then s[2..] else s[1..])
    else [if s[0] == '\U{00A0}' then ' ' else s[0]] + Normal(s[1..])
  }

  predicate OccursAt(t: string, x: string, i: nat) {
    i + |x| <= |t| && t[i..i + |x|] == x
  }

  function Find(t: string, x: string, i: nat): (r: Option<nat>)
    requires i <= |t|
    ensures match r
      case Some(j) => i <= j && OccursAt(t, x, j) && forall k :: i <= k < j ==> !OccursAt(t, x, k)
      case None => forall k :: i <= k <= |t| ==> !OccursAt(t, x, k)
    decreases |t| - i
  {
    if OccursAt(t, x, i) then Some(i) else if i == |t| then None else Find(t, x, i + 1)
  }

  function Table(c: Chars, p: Programs, marker: string, raw: string): Result<seq<Record>, ParseError> {
    var t := Normal(raw);
    match Find(t, marker, 0)
    case None => Err(NoTableStart)
    case Some(first) => Rows(c, p, t, first)
  }

  // ----- the loops -----

  /** consume_title: collects characters while what is collected begins the target. */
  method ConsumeTitle(c: Chars, t: string, start: nat, expected: string) returns (r: Result<nat, ParseError>)
    requires start <= |t|
    ensures r == TitleEnd(c, t, start, Compact(c, expected), 0)
  {
    var target := Compact(c, expected);
    var collected := "";
    var index := start;
    while index < |t| && |collected| < |target|
      invariant index <= |t| && collected <= target
      invariant TitleEnd(c, t, start, target, 0) == TitleEnd(c, t, index, target, |collected|)
      decreases |t| - index
    {
      var x := t[index];
      index := index + 1;
      if Skipped(c, x) {
        continue;
      }
      if x == EN_DASH || x == '-' {
        x := '-';
      }
      collected := collected + [x];
      if !(collected <= target) {
        return Err(WrongTitle);
      }
    }
    if collected != target {
      return Err(TruncatedTitle);
    }
    r := Ok(index);
  }

  function Onto(codes: seq<string>, r: Result<Codes, ParseError>): Result<Codes, ParseError> {
    match r
    case Err(x) => Err(x)
    case Ok(run) => Ok(Codes(codes + run.list, run.end))
  }

  lemma OntoNothing(r: Result<Codes, ParseError>)
    ensures Onto([], r) == r
  {
    if r.Ok? {
      assert [] + r.value.list == r.value.list;
    }
  }

  lemma OntoStep(c: Chars, p: Programs, t: string, at: nat, codes: seq<string>)
    requires CodeAt(c, t, at)
    ensures var code, next := t[at..at + 8], SkipSpace(c, t, at + 8);
      Onto(codes, CodeRun(c, p, t, at)) ==
        if code !in p then Err(UnknownCode(code))
        else if CodeAt(c, t, next) then Onto(codes + [code], CodeRun(c, p, t, next))
        else Ok(Codes(codes + [code], next))
  {
    var code, next := t[at..at + 8], SkipSpace(c, t, at + 8);
    if code in p && CodeAt(c, t, next) && CodeRun(c, p, t, next).Ok? {
      ConcatAssoc(codes, [code], CodeRun(c, p, t, next).value.list);
    }
  }

  /** The inner loops over blanks. */
  method PastSpace(c: Chars, t: string, start: nat) returns (end: nat)
    requires start <= |t|
    ensures end == SkipSpace(c, t, start)
  {
    end := start;
    while end < |t| && c.space(t[end])
      invariant start <= end <= |t| && SkipSpace(c, t, start) == SkipSpace(c, t, end)
    {
      end := end + 1;
    }
  }

  method ReadCodes(c: Chars, p: Programs, t: string, at: nat) returns (r: Result<Codes, ParseError>)
    requires CodeAt(c, t, at)
    ensures r == CodeRun(c, p, t, at)
  {
    var codes: seq<string> := [];
    var cursor := at;
    OntoNothing(CodeRun(c, p, t, at));
    while true
      invariant CodeAt(c, t, cursor) && at <= cursor
      invariant CodeRun(c, p, t, at) == Onto(codes, CodeRun(c, p, t, cursor))
      decreases |t| - cursor
    {
      OntoStep(c, p, t, cursor, codes);
      var code := t[cursor..cursor + 8];
      if code !in p {
        return Err(UnknownCode(code));
      }
      cursor := cursor + 8;
      var end := PastSpace(c, t, cursor);
      if !CodeAt(c, t, end) {
        return Ok(Codes(codes + [code], end));
      }
      codes := codes + [code];
      cursor := end;
    }
  }

  method ReadTitles(c: Chars, p: Programs, t: string, start: nat, codes: seq<string>) returns (r: Result<nat, ParseError>)
    requires start <= |t| && forall k :: 0 <= k < |codes| ==> codes[k] in p
    ensures r == Titles(c, p, t, start, codes)
  {
    var cursor: nat := start;
    var k := 0;
    while k < |codes|
      invariant k <= |codes| && cursor <= |t|
      invariant Titles(c, p, t, start, codes) == Titles(c, p, t, cursor, codes[k..])
    {
      cursor := PastSpace(c, t, cursor);
      assert codes[k..][1..] == codes[k + 1..];
      var end := ConsumeTitle(c, t, cursor, p[codes[k]]);
      if end.Err? {
        return Err(end.error);
      }
      cursor := end.value;
      k := k + 1;
    }
    r := Ok(cursor);
  }

  function Before(rs: seq<Record>, r: Result<seq<Record>, ParseError>): Result<seq<Record>, ParseError> {
    match r
    case Err(x) => Err(x)
    case Ok(more) => Ok(rs + more)
  }

  lemma BeforeNothing(r: Result<seq<Record>, ParseError>)
    ensures Before([], r) == r
  {
    if r.Ok? {
      assert [] + r.value == r.value;
    }
  }

  lemma BeforeCons(rs: seq<Record>, r: Record, rest: Result<seq<Record>, ParseError>)
    ensures Before(rs, Cons(r, rest)) == Before(rs + [r], rest)
  {
    if rest.Ok? {
      ConcatAssoc(rs, [r], rest.value);
    }
  }

  /** parse: a row at a time until no code is left; every row moves the position past a code. */
  method Parse(c: Chars, p: Programs, marker: string, raw: string) returns (r: Result<seq<Record>, ParseError>)
    ensures r == Table(c, p, marker, raw)
  {
    var t := Normal(raw);
    var first := Find(t, marker, 0);
    if first.None? {
      return Err(NoTableStart);
    }
    var position := first.value;
    var records: seq<Record> := [];
    BeforeNothing(Rows(c, p, t, position));
    while true
      invariant position <= |t|
      invariant Rows(c, p, t, first.value) == Before(records, Rows(c, p, t, position))
      decreases |t| - position
    {
      var at := FindCode(c, t, position);
      if at.None? {
        if Collapse(c, t[position..]) != "" {
          return Err(UnparsedTail);
        }
        break;
      }
      var name := Collapse(c, t[position..at.value]);
      if name == "" {
        return Err(EmptyName);
      }
      var run := ReadCodes(c, p, t, at.value);
      if run.Err? {
        return Err(run.error);
      }
      var end := ReadTitles(c, p, t, run.value.end, run.value.list);
      if end.Err? {
        return Err(end.error);
      }
      var record := Record(name, Dedup(run.value.list));
      BeforeCons(records, record, Rows(c, p, t, end.value));
      records := records + [record];
      position := end.value;
    }
    assert records + [] == records;
    r := Ok(records);
  }
}
