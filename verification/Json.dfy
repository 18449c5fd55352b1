/**
 JSON values, the decoder that keeps number texts (RFC 8259, sections 2 to 7), and the
 canonical printer whose output is what gets signed.
 */
module Json {
  import opened Sequences
  import opened Wrappers
  import opened Ordering

  /** A decoded value: numbers keep their text, objects are maps. */
  datatype Json =
    | Null
    | Bool(b: bool)
    | Num(text: string)
    | Str(s: string)
    | Arr(items: seq<Json>)
    | Obj(members: map<string, Json>)

  const MAX_DEPTH := 10_000

  function CharRank(c: char): int {
    c as int
  }

  lemma RankingChars()
    ensures Ranking(CharRank)
  {
  }

  // ----- strings -----

  function HexDigit(n: nat): (c: char)
    requires n < 16
  {
    if n < 10 then (48 + n) as char else (87 + n) as char
  }

  function HexValue(c: char): (n: Option<nat>)
    ensures n.Some? ==> n.value < 16
  {
    if '0' <= c <= '9' then Some(c as int - 48)
    else if 'a' <= c <= 'f' then Some(c as int - 87)
    else if 'A' <= c <= 'F' then Some(c as int - 55)
    else None
  }

  /** Four hexadecimal digits, as after a backslash and u. */
  function Hex4(n: nat): (s: string)
    requires n < 0x1_0000
    ensures |s| == 4
  {
    var q := n / 16 / 16;
    [HexDigit(q / 16), HexDigit(q % 16), HexDigit(n / 16 % 16), HexDigit(n % 16)]
  }

  function GetHex4(s: string): (n: Option<nat>)
    ensures n.Some? ==> |s| >= 4 && n.value < 0x1_0000
  {
    if |s| < 4 then None
    else
      match (HexValue(s[0]), HexValue(s[1]), HexValue(s[2]), HexValue(s[3]))
      case (Some(a), Some(b), Some(c), Some(d)) => Some(((a * 16 + b) * 16 + c) * 16 + d)
      case _ => None
  }

  lemma HexDigitValue(n: nat)
    requires n < 16
    ensures HexValue(HexDigit(n)) == Some(n)
  {
  }

  lemma GetHex4OfHex4(n: nat, rest: string)
    requires n < 0x1_0000
    ensures GetHex4(Hex4(n) + rest) == Some(n)
  {
    var q := n / 16 / 16;
    HexDigitValue(q / 16);
    HexDigitValue(q % 16);
    HexDigitValue(n / 16 % 16);
    HexDigitValue(n % 16);
    var h := Hex4(n);
    assert forall i :: 0 <= i < 4 ==> (h + rest)[i] == h[i];
  }

  predicate NeedsUnicodeEscape(c: char) {
    c < ' ' || c == '<' || c == '>' || c == '&' || c == '\U{2028}' || c == '\U{2029}'
  }

  /** The escapes of encoding/json, with its escapes for HTML. */
  function EscapeChar(c: char): string {
    if c == '\"' then "\\\""
    else if c == '\\' then "\\\\"
    else if c == '\U{0008}' then "\\b"
    else if c == '\U{000C}' then "\\f"
    else if c == '\n' then "\\n"
    else if c == '\r' then "\\r"
    else if c == '\t' then "\\t"
    else if NeedsUnicodeEscape(c) then "\\u" + Hex4(c as int)
    else [c]
  }

  function Escape(s: string): string {
    if s == "" then "" else EscapeChar(s[0]) + Escape(s[1..])
  }

  function Quote(s: string): string {
    "\"" + Escape(s) + "\""
  }

  predicate HighSurrogate(n: nat) {
    0xD800 <= n < 0xDC00
  }

  predicate LowSurrogate(n: nat) {
    0xDC00 <= n < 0xE000
  }

  const REPLACEMENT := '\U{FFFD}'

  /** What follows a backslash: the character it stands for and the text after it. */
  function Unescape(s: string): (r: Option<(char, string)>)
    ensures r.Some? ==> |r.value.1| < |s|
  {
    if s == "" then None
    else
      match s[0]
      case '\"' => Some(('\"', s[1..]))
      case '\\' => Some(('\\', s[1..]))
      case '/' => Some(('/', s[1..]))
      case 'b' => Some(('\U{0008}', s[1..]))
      case 'f' => Some(('\U{000C}', s[1..]))
      case 'n' => Some(('\n', s[1..]))
      case 'r' => Some(('\r', s[1..]))
      case 't' => Some(('\t', s[1..]))
      case 'u' => UnescapeUnicode(s[1..])
      case _ => None
  }

  /** A surrogate is one half of a pair or stands for the replacement character. */
  function UnescapeUnicode(s: string): (r: Option<(char, string)>)
    ensures r.Some? ==> |r.value.1| < |s|
  {
    match GetHex4(s)
    case None => None
    case Some(n) =>
      var rest := s[4..];
      if !HighSurrogate(n) && !LowSurrogate(n) then Some((n as char, rest))
      else
        var low := if |rest| >= 6 && rest[0] == '\\' && rest[1] == 'u' then GetHex4(rest[2..]) else None;
        if HighSurrogate(n) && low.Some? && LowSurrogate(low.value) then
          Some(((0x1_0000 + (n - 0xD800) * 0x400 + (low.value - 0xDC00)) as char, rest[6..]))
        else Some((REPLACEMENT, rest))
  }

  /** The characters up to the closing quote, and what comes after it. */
  function ParseChars(s: string): (r: Option<(string, string)>)
    ensures r.Some? ==> |r.value.1| < |s|
    decreases |s|
  {
    if s == "" || s[0] < ' ' then None
    else if s[0] == '\"' then Some(("", s[1..]))
    else if s[0] == '\\' then
      match Unescape(s[1..])
      case None => None
      case Some((c, rest)) =>
        match ParseChars(rest)
        case None => None
        case Some((more, after)) => Some(([c] + more, after))
    else
      match ParseChars(s[1..])
      case None => None
      case Some((more, after)) => Some(([s[0]] + more, after))
  }

  lemma UnescapeOfUnicode(n: nat, rest: string)
    requires n < 0x1_0000 && !HighSurrogate(n) && !LowSurrogate(n)
    ensures Unescape("u" + Hex4(n) + rest) == Some((n as char, rest))
  {
    GetHex4OfHex4(n, rest);
    ConcatAssoc("u", Hex4(n), rest);
    AppendTail("u", Hex4(n) + rest);
    assert "u"[1..] + (Hex4(n) + rest) == Hex4(n) + rest;
    assert (Hex4(n) + rest)[4..] == rest;
  }

  /** Every escape is undone by the decoder, and what is not escaped is neither quote nor backslash. */
  lemma UnescapeOfEscape(c: char, rest: string)
    ensures var e := EscapeChar(c);
      if e == [c] then c >= ' ' && c != '\"' && c != '\\'
      else |e| > 1 && e[0] == '\\' && Unescape(e[1..] + rest) == Some((c, rest))
  {
    var e := EscapeChar(c);
    if |e| == 2 {
      assert e[1..] + rest == [e[1]] + rest;
    } else if |e| > 2 {
      var n := c as int;
      UnescapeOfUnicode(n, rest);
      assert e[1..] == "u" + Hex4(n);
    }
  }

  lemma ParseOneChar(c: char, tail: string)
    requires ParseChars(tail).Some?
    ensures var (more, after) := ParseChars(tail).value;
      ParseChars(EscapeChar(c) + tail) == Some(([c] + more, after))
  {
    UnescapeOfEscape(c, tail);
    var e := EscapeChar(c);
    AppendTail(e, tail);
    assert [c][1..] + tail == tail;
  }

  lemma {:induction false} ParseCharsOfEscape(s: string, rest: string)
    ensures ParseChars(Escape(s) + ("\"" + rest)) == Some((s, rest))
    decreases |s|
  {
    if s == "" {
      assert Escape(s) + ("\"" + rest) == "\"" + rest;
    } else {
      ParseCharsOfEscape(s[1..], rest);
      ParseOneChar(s[0], Escape(s[1..]) + ("\"" + rest));
      ConcatAssoc(EscapeChar(s[0]), Escape(s[1..]), "\"" + rest);
      assert s == [s[0]] + s[1..];
    }
  }

  // ----- numbers -----

  predicate IsDigit(c: char) {
    '0' <= c <= '9'
  }

  /** The number of digits a text begins with. */
  function Digits(s: string): (n: nat)
    ensures n <= |s|
  {
    if s == "" || !IsDigit(s[0]) then 0 else 1 + Digits(s[1..])
  }

  /** The length of an integer part: a lone zero, or digits that do not begin with one. */
  function IntegerPart(s: string): (n: Option<nat>)
    ensures n.Some? ==> 0 < n.value <= |s|
  {
    if s == "" || !IsDigit(s[0]) then None
    else if s[0] == '0' then Some(1)
    else Some(Digits(s))
  }

  /** The length of a fraction, if there is one; a point needs a digit after it. */
  function FractionPart(s: string): (n: Option<nat>)
    ensures n.Some? ==> n.value <= |s|
  {
    if s == "" || s[0] != '.' then Some(0)
    else if Digits(s[1..]) == 0 then None
    else Some(1 + Digits(s[1..]))
  }

  function ExponentPart(s: string): (n: Option<nat>)
    ensures n.Some? ==> n.value <= |s|
  {
    if s == "" || (s[0] != 'e' && s[0] != 'E') then Some(0)
    else
      var sign := if |s| > 1 && (s[1] == '+' || s[1] == '-') then 1 else 0;
      if Digits(s[1 + sign..]) == 0 then None else Some(1 + sign + Digits(s[1 + sign..]))
  }

  function FractionAndExponent(s: string): (n: Option<nat>)
    ensures n.Some? ==> n.value <= |s|
  {
    match FractionPart(s)
    case None => None
    case Some(f) =>
      match ExponentPart(s[f..])
      case None => None
      case Some(e) => Some(f + e)
  }

  function Unsigned(s: string): (n: Option<nat>)
    ensures n.Some? ==> 0 < n.value <= |s|
  {
    match IntegerPart(s)
    case None => None
    case Some(i) =>
      match FractionAndExponent(s[i..])
      case None => None
      case Some(r) => Some(i + r)
  }

  /** The length of the number a text begins with. */
  function ScanNumber(s: string): (n: Option<nat>)
    ensures n.Some? ==> 0 < n.value <= |s|
  {
    if s != "" && s[0] == '-' then
      match Unsigned(s[1..])
      case None => None
      case Some(n) => Some(n + 1)
    else Unsigned(s)
  }

  predicate ValidNumber(t: string) {
    ScanNumber(t) == Some(|t|)
  }

  predicate IsSpace(c: char) {
    c == ' ' || c == '\t' || c == '\n' || c == '\r'
  }

  /** What may follow a value: nothing, or a character no number goes on with. */
  predicate Stops(rest: string) {
    rest == "" || IsSpace(rest[0]) || rest[0] == ',' || rest[0] == ']' || rest[0] == '}'
  }

  lemma {:induction false} DigitsThenStop(t: string, rest: string)
    requires Stops(rest)
    ensures Digits(t + rest) == Digits(t)
  {
    if t == "" {
      assert t + rest == rest;
    } else if IsDigit(t[0]) {
      AppendTail(t, rest);
      DigitsThenStop(t[1..], rest);
    } else {
      AppendTail(t, rest);
    }
  }

  lemma SliceAppend(t: string, rest: string, i: nat)
    requires i <= |t|
    ensures (t + rest)[i..] == t[i..] + rest
  {
  }

  lemma PartsThenStop(t: string, rest: string)
    requires Stops(rest)
    ensures IntegerPart(t + rest) == IntegerPart(t)
    ensures FractionPart(t + rest) == FractionPart(t)
  {
    DigitsThenStop(t, rest);
    if t == "" {
      assert t + rest == rest;
    } else {
      AppendTail(t, rest);
      DigitsThenStop(t[1..], rest);
    }
  }

  lemma ExponentThenStop(t: string, rest: string)
    requires Stops(rest)
    ensures ExponentPart(t + rest) == ExponentPart(t)
  {
    if t == "" {
      assert t + rest == rest;
    } else {
      SliceAppend(t, rest, 1);
      DigitsThenStop(t[1..], rest);
      assert (t + rest)[0] == t[0];
      if |t| > 1 {
        assert (t + rest)[1] == t[1];
        SliceAppend(t, rest, 2);
        DigitsThenStop(t[2..], rest);
      } else {
        assert t[1..] + rest == rest;
        assert rest != "" ==> (t + rest)[1] == rest[0];
      }
    }
  }

  lemma FractionAndExponentThenStop(t: string, rest: string)
    requires Stops(rest)
    ensures FractionAndExponent(t + rest) == FractionAndExponent(t)
  {
    var u := t + rest;
    PartsThenStop(t, rest);
    match FractionPart(t)
    case None =>
    case Some(f) =>
      SliceAppend(t, rest, f);
      ExponentThenStop(t[f..], rest);
      assert FractionPart(u) == Some(f);
      assert ExponentPart(u[f..]) == ExponentPart(t[f..]);
  }

  lemma UnsignedThenStop(t: string, rest: string)
    requires Stops(rest)
    ensures Unsigned(t + rest) == Unsigned(t)
  {
    PartsThenStop(t, rest);
    if IntegerPart(t).Some? {
      var i := IntegerPart(t).value;
      SliceAppend(t, rest, i);
      FractionAndExponentThenStop(t[i..], rest);
      assert FractionAndExponent((t + rest)[i..]) == FractionAndExponent(t[i..]);
    }
  }

  /** A number ends where its text ends, as long as no more number follows it. */
  lemma NumberThenStop(t: string, rest: string)
    requires Stops(rest)
    ensures ScanNumber(t + rest) == ScanNumber(t)
  {
    UnsignedThenStop(t, rest);
    if t != "" {
      AppendTail(t, rest);
      UnsignedThenStop(t[1..], rest);
    } else {
      assert t + rest == rest;
    }
  }

  // ----- the text of a scanned number is a number -----

  lemma {:induction false} DigitsOfPrefix(s: string, n: nat)
    requires n <= |s|
    ensures Digits(s[..n]) == if Digits(s) < n then Digits(s) else n
    decreases n
  {
    if n > 0 && IsDigit(s[0]) {
      assert s[..n][1..] == s[1..][..n - 1];
      DigitsOfPrefix(s[1..], n - 1);
    }
  }

  lemma SlicePrefix(s: string, n: nat, i: nat)
    requires i <= n <= |s|
    ensures s[..n][i..] == s[i..][..n - i]
  {
  }

  lemma FractionOfPrefix(s: string, n: nat)
    requires FractionPart(s).Some? && FractionPart(s).value <= n <= |s|
    requires n == 0 || FractionPart(s).value > 0 || s[0] != '.'
    ensures FractionPart(s[..n]) == FractionPart(s)
  {
    if n > 0 && s[0] == '.' {
      SlicePrefix(s, n, 1);
      DigitsOfPrefix(s[1..], n - 1);
    }
  }

  lemma ExponentOfPrefix(s: string)
    requires ExponentPart(s).Some?
    ensures ExponentPart(s[..ExponentPart(s).value]) == ExponentPart(s)
  {
    var n := ExponentPart(s).value;
    if n > 0 {
      var sign := if |s| > 1 && (s[1] == '+' || s[1] == '-') then 1 else 0;
      SlicePrefix(s, n, 1 + sign);
      DigitsOfPrefix(s[1 + sign..], n - 1 - sign);
    }
  }

  lemma FractionAndExponentOfPrefix(s: string)
    requires FractionAndExponent(s).Some?
    ensures FractionAndExponent(s[..FractionAndExponent(s).value]) == FractionAndExponent(s)
  {
    var n, f := FractionAndExponent(s).value, FractionPart(s).value;
    FractionOfPrefix(s, n);
    SlicePrefix(s, n, f);
    ExponentOfPrefix(s[f..]);
  }

  lemma IntegerOfPrefix(s: string, n: nat)
    requires IntegerPart(s).Some? && IntegerPart(s).value <= n <= |s|
    ensures IntegerPart(s[..n]) == IntegerPart(s)
  {
    DigitsOfPrefix(s, n);
  }

  lemma UnsignedOfPrefix(s: string)
    requires Unsigned(s).Some?
    ensures Unsigned(s[..Unsigned(s).value]) == Unsigned(s)
  {
    assert IntegerPart(s).Some? && FractionAndExponent(s[IntegerPart(s).value..]).Some?;
    var i := IntegerPart(s).value;
    var n := i + FractionAndExponent(s[i..]).value;
    IntegerOfPrefix(s, n);
    SlicePrefix(s, n, i);
    FractionAndExponentOfPrefix(s[i..]);
  }

  lemma NumberPrefix(s: string)
    requires ScanNumber(s).Some?
    ensures ValidNumber(s[..ScanNumber(s).value])
  {
    if s[0] == '-' {
      NegativePrefix(s, Unsigned(s[1..]).value);
    } else {
      UnsignedOfPrefix(s);
    }
  }

  lemma NegativePrefix(s: string, n: nat)
    requires s != "" && s[0] == '-' && Unsigned(s[1..]) == Some(n)
    ensures n + 1 <= |s| && ValidNumber(s[..n + 1])
  {
    var t := s[..n + 1];
    assert t[1..] == s[1..][..n];
    UnsignedOfPrefix(s[1..]);
    ScanNegative(t, n);
  }

  lemma ScanNegative(t: string, n: nat)
    requires t != "" && t[0] == '-' && Unsigned(t[1..]) == Some(n)
    ensures ScanNumber(t) == Some(n + 1)
  {
  }
}
