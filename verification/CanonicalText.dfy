/** The characters of a canonical text, and the order of its members. */
module CanonicalText {
  import opened Wrappers
  import opened Ordering
  import opened Json
  import opened CanonicalJson

  /** What may stand in a canonical text: no control characters, nothing that means something in HTML, no line separators. */
  predicate Harmless(c: char) {
    c >= ' ' && c != '<' && c != '>' && c != '&' && c != '\U{2028}' && c != '\U{2029}'
  }

  predicate AllHarmless(s: string) {
    forall i :: 0 <= i < |s| ==> Harmless(s[i])
  }

  /** A character that stands for itself in a string. */
  predicate Itself(c: char) {
    Harmless(c) && c != '\"' && c != '\\'
  }

  lemma EscapeCharHarmless(c: char)
    ensures AllHarmless(EscapeChar(c)) && (Itself(c) <==> EscapeChar(c) == [c])
  {
  }

  lemma {:induction false} EscapeHarmless(s: string)
    ensures AllHarmless(Escape(s))
  {
    if s != "" {
      EscapeCharHarmless(s[0]);
      EscapeHarmless(s[1..]);
    }
  }

  /** Only what has to be is escaped. */
  lemma {:induction false} PlainStaysPlain(s: string)
    requires forall i :: 0 <= i < |s| ==> Itself(s[i])
    ensures Escape(s) == s
  {
    if s != "" {
      EscapeCharHarmless(s[0]);
      PlainStaysPlain(s[1..]);
    }
  }

  lemma {:induction false} DigitsHarmless(s: string)
    ensures AllHarmless(s[..Digits(s)])
  {
    if s != "" && IsDigit(s[0]) {
      DigitsHarmless(s[1..]);
      assert s[..Digits(s)] == [s[0]] + s[1..][..Digits(s[1..])];
    }
  }

  lemma PartsHarmless(s: string)
    ensures IntegerPart(s).Some? ==> AllHarmless(s[..IntegerPart(s).value])
    ensures FractionPart(s).Some? ==> AllHarmless(s[..FractionPart(s).value])
  {
    DigitsHarmless(s);
    if s != "" && s[0] == '.' {
      var n := Digits(s[1..]);
      DigitsHarmless(s[1..]);
      assert s[..1 + n] == [s[0]] + s[1..][..n];
    }
  }

  lemma ExponentHarmless(s: string)
    ensures ExponentPart(s).Some? ==> AllHarmless(s[..ExponentPart(s).value])
  {
    if s != "" && (s[0] == 'e' || s[0] == 'E') {
      var k := if |s| > 1 && (s[1] == '+' || s[1] == '-') then 2 else 1;
      var n := Digits(s[k..]);
      DigitsHarmless(s[k..]);
      assert s[..k + n] == s[..k] + s[k..][..n];
    }
  }

  lemma FrontHarmless(s: string, i: nat, n: nat)
    requires i + n <= |s| && AllHarmless(s[..i]) && AllHarmless(s[i..][..n])
    ensures AllHarmless(s[..i + n])
  {
    assert s[..i + n] == s[..i] + s[i..][..n];
  }

  lemma FractionAndExponentHarmless(s: string)
    ensures FractionAndExponent(s).Some? ==> AllHarmless(s[..FractionAndExponent(s).value])
  {
    if FractionAndExponent(s).Some? {
      var f := FractionPart(s).value;
      PartsHarmless(s);
      ExponentHarmless(s[f..]);
      FrontHarmless(s, f, ExponentPart(s[f..]).value);
    }
  }

  lemma UnsignedHarmless(s: string)
    ensures Unsigned(s).Some? ==> AllHarmless(s[..Unsigned(s).value])
  {
    if Unsigned(s).Some? {
      var i := IntegerPart(s).value;
      PartsHarmless(s);
      FractionAndExponentHarmless(s[i..]);
      FrontHarmless(s, i, FractionAndExponent(s[i..]).value);
    }
  }

  lemma NumberHarmless(t: string)
    requires ValidNumber(t)
    ensures AllHarmless(t)
  {
    assert t[..|t|] == t;
    if t[0] == '-' {
      UnsignedHarmless(t[1..]);
      assert t[1..][..|t| - 1] == t[1..] && t == [t[0]] + t[1..];
    } else {
      UnsignedHarmless(t);
    }
  }

  // ----- whole texts -----

  lemma BothHarmless(s: string, t: string)
    requires AllHarmless(s) && AllHarmless(t)
    ensures AllHarmless(s + t)
  {
  }

  lemma {:induction false} PrintHarmless(v: Json, depth: nat)
    requires WellFormed(v, depth)
    ensures AllHarmless(Print(v))
    decreases v, 0
  {
    match v
    case Num(t) => NumberHarmless(t);
    case Str(s) => EscapeHarmless(s);
    case Arr(items) => ItemsHarmless(items, depth + 1);
    case Obj(members) =>
      RankingChars();
      SortedElements(CharRank, members.Keys);
      MembersHarmless(v, Sorted(CharRank, members.Keys), depth + 1);
    case _ =>
  }

  lemma {:induction false} ItemsHarmless(items: seq<Json>, depth: nat)
    requires forall x :: x in items ==> WellFormed(x, depth)
    ensures AllHarmless(PrintItems(items))
    decreases items
  {
    if items != [] {
      PrintHarmless(items[0], depth);
      ItemsHarmless(items[1..], depth);
    }
  }

  lemma {:induction false} MembersHarmless(v: Json, keys: seq<string>, depth: nat)
    requires v.Obj? && MembersOk(v.members, depth) && forall k :: k in keys ==> k in v.members
    ensures AllHarmless(PrintMembers(v, keys))
    decreases v, 0, |keys|
  {
    if keys != [] {
      EscapeHarmless(keys[0]);
      PrintHarmless(v.members[keys[0]], depth);
      BothHarmless(Quote(keys[0]) + ":", Print(v.members[keys[0]]));
      MembersHarmless(v, keys[1..], depth);
    }
  }

  /** No canonical text holds a control character, a character that means something in HTML, or a line separator. */
  lemma CanonicalIsHarmless(fits: string -> bool, input: string)
    ensures Canonical(fits, input).Some? ==> AllHarmless(Canonical(fits, input).value)
  {
    if Canonical(fits, input).Some? {
      ParsedIsWellFormed(input, 0);
      PrintHarmless(Decode(input).value, 0);
    }
  }

  /** The members of an object are written in the order of their keys, as sequences of code points. */
  lemma MembersInKeyOrder(v: Json, keys: seq<string>)
    requires v.Obj? && Increasing(CharRank, keys) && forall k :: k in keys <==> k in v.members
    ensures Print(v) == "{" + PrintMembers(v, keys) + "}"
  {
    RankingChars();
    SortedUnique(CharRank, v.members.Keys, keys);
  }
}
