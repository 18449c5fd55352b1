/** Decoding and canonical printing of JSON values, and why the canonical text stands for one value. */
module CanonicalJson {
  import opened Sequences
  import opened Wrappers
  import opened Ordering
  import opened Json

  // ----- the decoder -----

  function SkipSpace(s: string): (r: string)
    ensures |r| <= |s|
  {
    if s != "" && IsSpace(s[0]) then SkipSpace(s[1..]) else s
  }

  /** A value after optional white space; depth counts the arrays and objects around it. */
  function ParseValue(text: string, depth: nat): (r: Option<(Json, string)>)
    ensures r.Some? ==> |r.value.1| < |text|
    decreases |text|, 0
  {
    var s := SkipSpace(text);
    if s == "" then None
    else if s[0] == '[' then
      if depth >= MAX_DEPTH then None else ParseArray(s[1..], depth + 1)
    else if s[0] == '{' then
      if depth >= MAX_DEPTH then None else ParseObject(s[1..], depth + 1)
    else if s[0] == '\"' then
      match ParseChars(s[1..])
      case None => None
      case Some((chars, rest)) => Some((Str(chars), rest))
    else if "null" <= s then Some((Null, s[4..]))
    else if "true" <= s then Some((Bool(true), s[4..]))
    else if "false" <= s then Some((Bool(false), s[5..]))
    else
      match ScanNumber(s)
      case None => None
      case Some(n) => Some((Num(s[..n]), s[n..]))
  }

  function ParseArray(text: string, depth: nat): (r: Option<(Json, string)>)
    ensures r.Some? ==> |r.value.1| < |text|
    decreases |text|, 2
  {
    var s := SkipSpace(text);
    if s != "" && s[0] == ']' then Some((Arr([]), s[1..]))
    else
      match ParseItems(text, depth)
      case None => None
      case Some((items, rest)) => Some((Arr(items), rest))
  }

  function ParseItems(text: string, depth: nat): (r: Option<(seq<Json>, string)>)
    ensures r.Some? ==> |r.value.1| < |text|
    decreases |text|, 1
  {
    match ParseValue(text, depth)
    case None => None
    case Some((first, rest)) =>
      var s := SkipSpace(rest);
      if s == "" then None
      else if s[0] == ']' then Some(([first], s[1..]))
      else if s[0] != ',' then None
      else
        match ParseItems(s[1..], depth)
        case None => None
        case Some((more, after)) => Some(([first] + more, after))
  }

  function ParseObject(text: string, depth: nat): (r: Option<(Json, string)>)
    ensures r.Some? ==> |r.value.1| < |text|
    decreases |text|, 2
  {
    var s := SkipSpace(text);
    if s != "" && s[0] == '}' then Some((Obj(map[]), s[1..]))
    else
      match ParseMembers(text, depth, map[])
      case None => None
      case Some((members, rest)) => Some((Obj(members), rest))
  }

  function ParseKey(text: string): (r: Option<(string, string)>)
    ensures r.Some? ==> |r.value.1| < |text|
  {
    var s := SkipSpace(text);
    if s == "" || s[0] != '\"' then None
    else
      match ParseChars(s[1..])
      case None => None
      case Some((key, rest)) =>
        var t := SkipSpace(rest);
        if t == "" || t[0] != ':' then None else Some((key, t[1..]))
  }

  /** The members of an object; a repeated key keeps its last value. */
  function ParseMembers(text: string, depth: nat, sofar: map<string, Json>): (r: Option<(map<string, Json>, string)>)
    ensures r.Some? ==> |r.value.1| < |text|
    decreases |text|, 1
  {
    match ParseKey(text)
    case None => None
    case Some((key, afterKey)) =>
      match ParseValue(afterKey, depth)
      case None => None
      case Some((value, rest)) =>
        var s := SkipSpace(rest);
        if s == "" then None
        else if s[0] == '}' then Some((sofar[key := value], s[1..]))
        else if s[0] != ',' then None
        else ParseMembers(s[1..], depth, sofar[key := value])
  }

  /** The first value of an input, whatever follows it. */
  function Decode(input: string): Option<Json> {
    match ParseValue(input, 0)
    case None => None
    case Some((v, _)) => Some(v)
  }

  // ----- the printer -----

  function Print(v: Json): string
    decreases v
  {
    match v
    case Null => "null"
    case Bool(b) => if b then "true" else "false"
    case Num(text) => text
    case Str(s) => Quote(s)
    case Arr(items) => "[" + PrintItems(items) + "]"
    case Obj(members) =>
      RankingChars();
      SortedElements(CharRank, members.Keys);
      "{" + PrintMembers(v, Sorted(CharRank, members.Keys)) + "}"
  }

  function PrintItems(items: seq<Json>): string
    decreases items
  {
    if items == [] then ""
    else if |items| == 1 then Print(items[0])
    else Print(items[0]) + "," + PrintItems(items[1..])
  }

  /** The members with the given keys, in that order. */
  function PrintMembers(v: Json, keys: seq<string>): string
    requires v.Obj? && forall k :: k in keys ==> k in v.members
    decreases v, |keys|
  {
    if keys == [] then ""
    else
      var first := Quote(keys[0]) + ":" + Print(v.members[keys[0]]);
      if |keys| == 1 then first else first + "," + PrintMembers(v, keys[1..])
  }

  /** What the decoder produces: valid numbers, and nesting within the limit. */
  ghost predicate WellFormed(v: Json, depth: nat) {
    match v
    case Num(text) => ValidNumber(text)
    case Arr(items) => depth < MAX_DEPTH && forall x :: x in items ==> WellFormed(x, depth + 1)
    case Obj(members) => depth < MAX_DEPTH && forall k :: k in members ==> WellFormed(members[k], depth + 1)
    case _ => true
  }

  /** strconv.ParseFloat accepts every number in the value; fits says which texts it accepts. */
  predicate AllFit(fits: string -> bool, v: Json) {
    match v
    case Num(text) => fits(text)
    case Arr(items) => forall x :: x in items ==> AllFit(fits, x)
    case Obj(members) => forall k :: k in members ==> AllFit(fits, members[k])
    case _ => true
  }

  function Canonical(fits: string -> bool, input: string): Option<string> {
    match Decode(input)
    case None => None
    case Some(v) => if AllFit(fits, v) then Some(Print(v)) else None
  }

  // ----- a text that spells a value -----

  /** Wherever the text stands, the decoder reads this value there and stops right after it. */
  ghost predicate Spells(text: string, v: Json, depth: nat) {
    forall rest :: Stops(rest) ==> ParseValue(text + rest, depth) == Some((v, rest))
  }

  lemma NoSpace(s: string)
    requires s == "" || !IsSpace(s[0])
    ensures SkipSpace(s) == s
  {
  }

  lemma StringSpells(s: string, depth: nat)
    ensures Spells(Quote(s), Str(s), depth)
  {
    forall rest | Stops(rest)
      ensures ParseValue(Quote(s) + rest, depth) == Some((Str(s), rest))
    {
      QuoteFront(s, rest);
      NoSpace(Quote(s) + rest);
    }
  }

  lemma QuoteFront(s: string, rest: string)
    ensures (Quote(s) + rest)[0] == '\"'
    ensures ParseChars((Quote(s) + rest)[1..]) == Some((s, rest))
  {
    ParseCharsOfEscape(s, rest);
    ConcatAssoc("\"", Escape(s) + "\"", rest);
    ConcatAssoc(Escape(s), "\"", rest);
    assert Quote(s) == "\"" + (Escape(s) + "\"");
  }

  lemma FirstOfNumber(text: string)
    requires ScanNumber(text).Some?
    ensures text != "" && (text[0] == '-' || IsDigit(text[0]))
  {
  }

  lemma NumberValue(s: string, depth: nat, n: nat)
    requires s != "" && (s[0] == '-' || IsDigit(s[0])) && n <= |s| && ScanNumber(s) == Some(n)
    ensures ParseValue(s, depth) == Some((Num(s[..n]), s[n..]))
  {
    NoSpace(s);
    assert !("null" <= s) && !("true" <= s) && !("false" <= s) by {
      assert "null"[0] == 'n' && "true"[0] == 't' && "false"[0] == 'f';
    }
  }

  lemma NumberSpells(text: string, depth: nat)
    requires ValidNumber(text)
    ensures Spells(text, Num(text), depth)
  {
    FirstOfNumber(text);
    forall rest | Stops(rest)
      ensures ParseValue(text + rest, depth) == Some((Num(text), rest))
    {
      NumberThenStop(text, rest);
      NumberValue(text + rest, depth, |text|);
      assert (text + rest)[..|text|] == text && (text + rest)[|text|..] == rest;
    }
  }

  lemma LiteralSpells(v: Json, depth: nat)
    requires v.Null? || v.Bool?
    ensures Spells(Print(v), v, depth)
  {
    forall rest | Stops(rest)
      ensures ParseValue(Print(v) + rest, depth) == Some((v, rest))
    {
      NoSpace(Print(v) + rest);
      assert (Print(v) + rest)[|Print(v)|..] == rest;
    }
  }

  /** The elements of an array, up to and including the closing bracket. */
  ghost predicate SpellsItems(text: string, items: seq<Json>, depth: nat) {
    forall rest :: ParseItems(text + ("]" + rest), depth) == Some((items, rest))
  }

  lemma OneItemSpells(text: string, v: Json, depth: nat)
    requires Spells(text, v, depth)
    ensures SpellsItems(text, [v], depth)
  {
    forall rest
      ensures ParseItems(text + ("]" + rest), depth) == Some(([v], rest))
    {
      NoSpace("]" + rest);
    }
  }

  lemma MoreItemsSpell(text: string, v: Json, more: string, items: seq<Json>, depth: nat)
    requires Spells(text, v, depth) && SpellsItems(more, items, depth)
    ensures SpellsItems(text + "," + more, [v] + items, depth)
  {
    forall rest
      ensures ParseItems(text + "," + more + ("]" + rest), depth) == Some(([v] + items, rest))
    {
      var tail := more + ("]" + rest);
      ConcatAssoc(text + ",", more, "]" + rest);
      ConcatAssoc(text, ",", tail);
      NoSpace("," + tail);
      assert ("," + tail)[1..] == tail;
      assert Stops("," + tail);
      assert ParseValue(text + ("," + tail), depth) == Some((v, "," + tail));
    }
  }

  lemma ArraySpells(text: string, items: seq<Json>, depth: nat)
    requires depth < MAX_DEPTH && SpellsItems(text, items, depth + 1) && text != "" && !IsSpace(text[0]) && text[0] != ']'
    ensures Spells("[" + text + "]", Arr(items), depth)
  {
    forall rest | Stops(rest)
      ensures ParseValue("[" + text + "]" + rest, depth) == Some((Arr(items), rest))
    {
      var tail := text + ("]" + rest);
      ConcatAssoc("[" + text, "]", rest);
      ConcatAssoc("[", text, "]" + rest);
      assert ("[" + tail)[1..] == tail;
      NoSpace("[" + tail);
      NoSpace(tail);
    }
  }

  // ----- objects, with their members in any order -----

  /** A member as it is written: its key, and a text that spells its value. */
  datatype Member = Member(key: string, text: string, value: Json)

  ghost predicate SpellsMember(m: Member, depth: nat) {
    Spells(m.text, m.value, depth)
  }

  function WriteMembers(ms: seq<Member>): string {
    if ms == [] then ""
    else
      var first := Quote(ms[0].key) + ":" + ms[0].text;
      if |ms| == 1 then first else first + "," + WriteMembers(ms[1..])
  }

  function AddAll(sofar: map<string, Json>, ms: seq<Member>): map<string, Json>
    decreases |ms|
  {
    if ms == [] then sofar else AddAll(sofar[ms[0].key := ms[0].value], ms[1..])
  }

  lemma KeyThenValue(key: string, rest: string)
    ensures ParseKey(Quote(key) + ":" + rest) == Some((key, rest))
  {
    ConcatAssoc(Quote(key), ":", rest);
    QuoteFront(key, ":" + rest);
    NoSpace(Quote(key) + (":" + rest));
    NoSpace(":" + rest);
    assert (":" + rest)[1..] == rest;
  }

  /** One member and the character after it. */
  lemma MemberThen(m: Member, depth: nat, sofar: map<string, Json>, rest: string)
    requires SpellsMember(m, depth) && rest != "" && (rest[0] == '}' || rest[0] == ',')
    ensures ParseMembers(Quote(m.key) + ":" + m.text + rest, depth, sofar)
         == if rest[0] == '}' then Some((sofar[m.key := m.value], rest[1..]))
            else ParseMembers(rest[1..], depth, sofar[m.key := m.value])
  {
    ConcatAssoc(Quote(m.key) + ":", m.text, rest);
    KeyThenValue(m.key, m.text + rest);
    assert ParseValue(m.text + rest, depth) == Some((m.value, rest));
    NoSpace(rest);
  }

  lemma {:induction false} MembersSpell(ms: seq<Member>, depth: nat, sofar: map<string, Json>, rest: string)
    requires ms != [] && forall m :: m in ms ==> SpellsMember(m, depth)
    ensures ParseMembers(WriteMembers(ms) + ("}" + rest), depth, sofar) == Some((AddAll(sofar, ms), rest))
    decreases |ms|
  {
    var first := Quote(ms[0].key) + ":" + ms[0].text;
    if |ms| == 1 {
      MemberThen(ms[0], depth, sofar, "}" + rest);
      assert ("}" + rest)[1..] == rest;
      assert ms[1..] == [];
    } else {
      var more := WriteMembers(ms[1..]) + ("}" + rest);
      MembersSpell(ms[1..], depth, sofar[ms[0].key := ms[0].value], rest);
      ConcatAssoc(first + ",", WriteMembers(ms[1..]), "}" + rest);
      ConcatAssoc(first, ",", more);
      MemberThen(ms[0], depth, sofar, "," + more);
      assert ("," + more)[1..] == more;
    }
  }

  /** An object text spells the map of its members. */
  lemma ObjectSpells(ms: seq<Member>, depth: nat)
    requires depth < MAX_DEPTH && forall m :: m in ms ==> SpellsMember(m, depth + 1)
    ensures Spells("{" + WriteMembers(ms) + "}", Obj(AddAll(map[], ms)), depth)
  {
    forall rest | Stops(rest)
      ensures ParseValue("{" + WriteMembers(ms) + "}" + rest, depth) == Some((Obj(AddAll(map[], ms)), rest))
    {
      var tail := WriteMembers(ms) + ("}" + rest);
      ConcatAssoc("{" + WriteMembers(ms), "}", rest);
      ConcatAssoc("{", WriteMembers(ms), "}" + rest);
      assert ("{" + tail)[1..] == tail;
      NoSpace("{" + tail);
      ObjectBody(ms, depth + 1, rest);
    }
  }

  lemma ObjectBody(ms: seq<Member>, depth: nat, rest: string)
    requires forall m :: m in ms ==> SpellsMember(m, depth)
    ensures ParseObject(WriteMembers(ms) + ("}" + rest), depth) == Some((Obj(AddAll(map[], ms)), rest))
  {
    var tail := WriteMembers(ms) + ("}" + rest);
    if ms == [] {
      assert tail == "}" + rest && ("}" + rest)[1..] == rest;
      NoSpace(tail);
    } else {
      MembersSpell(ms, depth, map[], rest);
      WriteMembersFront(ms);
      assert tail[0] == '\"';
      NoSpace(tail);
    }
  }

  lemma WriteMembersFront(ms: seq<Member>)
    requires ms != []
    ensures WriteMembers(ms) != "" && WriteMembers(ms)[0] == '\"'
  {
    assert (Quote(ms[0].key) + ":" + ms[0].text)[0] == '\"';
  }

  // ----- what the printer writes spells the value it was given -----

  function MembersOf(v: Json, keys: seq<string>): (ms: seq<Member>)
    requires v.Obj? && forall k :: k in keys ==> k in v.members
    ensures |ms| == |keys|
    ensures forall i :: 0 <= i < |keys| ==> ms[i] == Member(keys[i], Print(v.members[keys[i]]), v.members[keys[i]])
  {
    if keys == [] then []
    else [Member(keys[0], Print(v.members[keys[0]]), v.members[keys[0]])] + MembersOf(v, keys[1..])
  }

  lemma {:induction false} PrintMembersWrites(v: Json, keys: seq<string>)
    requires v.Obj? && forall k :: k in keys ==> k in v.members
    ensures PrintMembers(v, keys) == WriteMembers(MembersOf(v, keys))
    decreases |keys|
  {
    if keys != [] {
      PrintMembersWrites(v, keys[1..]);
      assert MembersOf(v, keys)[1..] == MembersOf(v, keys[1..]);
    }
  }

  /** Adding members with distinct keys: each key gets its own value, and no other key appears. */
  lemma {:induction false} AddAllExact(sofar: map<string, Json>, ms: seq<Member>, k: string)
    requires forall i, j :: 0 <= i < j < |ms| ==> ms[i].key != ms[j].key
    ensures k in AddAll(sofar, ms) <==> k in sofar || exists i :: 0 <= i < |ms| && ms[i].key == k
    ensures forall i :: 0 <= i < |ms| && ms[i].key == k ==> AddAll(sofar, ms)[k] == ms[i].value
    ensures k in sofar && (forall i :: 0 <= i < |ms| ==> ms[i].key != k) ==> AddAll(sofar, ms)[k] == sofar[k]
    decreases |ms|
  {
    if ms != [] {
      var next := sofar[ms[0].key := ms[0].value];
      AddAllExact(next, ms[1..], k);
      assert forall i :: 0 < i < |ms| ==> ms[i] == ms[1..][i - 1];
    }
  }

  lemma AddAllOfMembers(v: Json, keys: seq<string>)
    requires v.Obj? && Increasing(CharRank, keys) && forall k :: k in keys <==> k in v.members
    ensures AddAll(map[], MembersOf(v, keys)) == v.members
  {
    var ms := MembersOf(v, keys);
    var m := AddAll(map[], ms);
    forall k
      ensures k in m <==> k in v.members
      ensures k in v.members ==> m[k] == v.members[k]
    {
      AddAllExact(map[], ms, k);
      if k in v.members {
        var i :| 0 <= i < |keys| && keys[i] == k;
        assert ms[i].key == k;
      }
    }
  }

  lemma {:induction false} PrintSpells(v: Json, depth: nat)
    requires WellFormed(v, depth)
    ensures Spells(Print(v), v, depth)
    decreases v, 1
  {
    match v
    case Num(text) => NumberSpells(text, depth);
    case Str(s) => StringSpells(s, depth);
    case Arr(items) =>
      if items == [] {
        EmptyArraySpells(depth);
      } else {
        PrintItemsSpell(items, depth + 1);
        PrintItemsFront(items, depth + 1);
        ArraySpells(PrintItems(items), items, depth);
      }
    case Obj(members) => PrintObjectSpells(v, depth);
    case _ => LiteralSpells(v, depth);
  }

  lemma EmptyArraySpells(depth: nat)
    requires depth < MAX_DEPTH
    ensures Spells("[" + "" + "]", Arr([]), depth)
  {
    forall rest | Stops(rest)
      ensures ParseValue("[" + "" + "]" + rest, depth) == Some((Arr([]), rest))
    {
      var s := "[" + ("]" + rest);
      assert "[" + "" + "]" + rest == s;
      NoSpace(s);
      assert s[1..] == "]" + rest && ("]" + rest)[1..] == rest;
      NoSpace("]" + rest);
    }
  }

  lemma {:induction false} PrintItemsSpell(items: seq<Json>, depth: nat)
    requires items != [] && forall x :: x in items ==> WellFormed(x, depth)
    ensures SpellsItems(PrintItems(items), items, depth)
    decreases items, 1
  {
    PrintSpells(items[0], depth);
    if |items| == 1 {
      OneItemSpells(Print(items[0]), items[0], depth);
      assert items == [items[0]];
    } else {
      PrintItemsSpell(items[1..], depth);
      MoreItemsSpell(Print(items[0]), items[0], PrintItems(items[1..]), items[1..], depth);
      assert items == [items[0]] + items[1..];
    }
  }

  /** No printed value begins with white space or with a closing bracket. */
  lemma PrintFront(v: Json, depth: nat)
    requires WellFormed(v, depth)
    ensures Print(v) != "" && !IsSpace(Print(v)[0]) && Print(v)[0] != ']'
  {
    if v.Num? {
      FirstOfNumber(v.text);
    }
  }

  lemma PrintItemsFront(items: seq<Json>, depth: nat)
    requires items != [] && forall x :: x in items ==> WellFormed(x, depth)
    ensures var s := PrintItems(items); s != "" && !IsSpace(s[0]) && s[0] != ']'
  {
    PrintFront(items[0], depth);
    if |items| > 1 {
      assert PrintItems(items)[0] == Print(items[0])[0];
    }
  }

  lemma {:induction false} PrintObjectSpells(v: Json, depth: nat)
    requires v.Obj? && WellFormed(v, depth)
    ensures Spells(Print(v), v, depth)
    decreases v, 0
  {
    RankingChars();
    SortedElements(CharRank, v.members.Keys);
    SortedIncreases(CharRank, v.members.Keys);
    var keys := Sorted(CharRank, v.members.Keys);
    var ms := MembersOf(v, keys);
    forall m | m in ms
      ensures SpellsMember(m, depth + 1)
    {
      var i :| 0 <= i < |ms| && ms[i] == m;
      assert keys[i] in v.members;
      PrintSpells(v.members[keys[i]], depth + 1);
    }
    PrintMembersWrites(v, keys);
    AddAllOfMembers(v, keys);
    ObjectSpells(ms, depth);
  }

  // ----- the theorems -----

  /** The canonical text determines the value, even as the beginning of a longer text. */
  lemma PrintInjective(a: Json, b: Json, depth: nat, after: string, behind: string)
    requires WellFormed(a, depth) && WellFormed(b, depth) && Stops(after) && Stops(behind)
    requires Print(a) + after == Print(b) + behind
    ensures a == b && after == behind
  {
    PrintSpells(a, depth);
    PrintSpells(b, depth);
    assert ParseValue(Print(a) + after, depth) == Some((a, after));
    assert ParseValue(Print(b) + behind, depth) == Some((b, behind));
  }

  lemma {:induction false} ParsedIsWellFormed(text: string, depth: nat)
    ensures ParseValue(text, depth).Some? ==> WellFormed(ParseValue(text, depth).value.0, depth)
    decreases |text|, 0
  {
    var s := SkipSpace(text);
    if s != "" && ParseValue(text, depth).Some? {
      if s[0] == '[' {
        if !(SkipSpace(s[1..]) != "" && SkipSpace(s[1..])[0] == ']') {
          ItemsAreWellFormed(s[1..], depth + 1);
        }
      } else if s[0] == '{' {
        if !(SkipSpace(s[1..]) != "" && SkipSpace(s[1..])[0] == '}') {
          MembersAreWellFormed(s[1..], depth + 1, map[]);
        }
      } else if ParseValue(text, depth).value.0.Num? {
        NumberIsValid(s);
      }
    }
  }

  /** What was scanned as a number is one by itself. */
  lemma NumberIsValid(s: string)
    requires ScanNumber(s).Some?
    ensures ValidNumber(s[..ScanNumber(s).value])
  {
    NumberPrefix(s);
  }

  lemma {:induction false} ItemsAreWellFormed(text: string, depth: nat)
    ensures ParseItems(text, depth).Some? ==> forall x :: x in ParseItems(text, depth).value.0 ==> WellFormed(x, depth)
    decreases |text|, 1
  {
    ParsedIsWellFormed(text, depth);
    if ParseItems(text, depth).Some? {
      var s := SkipSpace(ParseValue(text, depth).value.1);
      if s[0] == ',' {
        ItemsAreWellFormed(s[1..], depth);
      }
    }
  }

  ghost predicate MembersOk(m: map<string, Json>, depth: nat) {
    forall k :: k in m ==> WellFormed(m[k], depth)
  }

  lemma {:induction false} MembersAreWellFormed(text: string, depth: nat, sofar: map<string, Json>)
    requires MembersOk(sofar, depth)
    ensures ParseMembers(text, depth, sofar).Some? ==> MembersOk(ParseMembers(text, depth, sofar).value.0, depth)
    decreases |text|, 1
  {
    if ParseMembers(text, depth, sofar).Some? {
      var (key, afterKey) := ParseKey(text).value;
      ParsedIsWellFormed(afterKey, depth);
      var (value, rest) := ParseValue(afterKey, depth).value;
      var s, next := SkipSpace(rest), sofar[key := value];
      assert MembersOk(next, depth);
      if s[0] == '}' {
        assert ParseMembers(text, depth, sofar).value.0 == next;
      } else {
        MembersAreWellFormed(s[1..], depth, next);
        assert ParseMembers(text, depth, sofar) == ParseMembers(s[1..], depth, next);
      }
    }
  }

  /** Whatever is decoded has one canonical text, and that text decodes to nothing else. */
  lemma DecodeOfPrint(v: Json)
    requires WellFormed(v, 0)
    ensures Decode(Print(v)) == Some(v)
  {
    PrintSpells(v, 0);
    assert Print(v) + "" == Print(v);
    assert ParseValue(Print(v) + "", 0) == Some((v, ""));
  }

  /** Canonicalising a canonical text changes nothing. */
  lemma CanonicalIsStable(fits: string -> bool, input: string)
    requires Canonical(fits, input).Some?
    ensures Canonical(fits, Canonical(fits, input).value) == Canonical(fits, input)
  {
    ParsedIsWellFormed(input, 0);
    DecodeOfPrint(Decode(input).value);
  }

  /** Two inputs have the same canonical text exactly when they decode to the same value. */
  lemma CanonicalIsUnambiguous(fits: string -> bool, x: string, y: string)
    requires Canonical(fits, x).Some? && Canonical(fits, y).Some?
    ensures Canonical(fits, x) == Canonical(fits, y) <==> Decode(x) == Decode(y)
  {
    ParsedIsWellFormed(x, 0);
    ParsedIsWellFormed(y, 0);
    DecodeOfPrint(Decode(x).value);
    DecodeOfPrint(Decode(y).value);
  }

  predicate DistinctKeys(ms: seq<Member>) {
    forall i, j :: 0 <= i < j < |ms| ==> ms[i].key != ms[j].key
  }

  ghost predicate HasMatch(m: Member, ns: seq<Member>) {
    exists j :: 0 <= j < |ns| && ns[j].key == m.key && ns[j].value == m.value
  }

  /** Every member of the first list has one with its key and its value in the second; the texts may differ. */
  ghost predicate MembersIn(ms: seq<Member>, ns: seq<Member>) {
    forall i :: 0 <= i < |ms| ==> HasMatch(ms[i], ns)
  }

  lemma AddAllIn(ms: seq<Member>, ns: seq<Member>, k: string)
    requires DistinctKeys(ms) && DistinctKeys(ns) && MembersIn(ms, ns) && k in AddAll(map[], ms)
    ensures k in AddAll(map[], ns) && AddAll(map[], ns)[k] == AddAll(map[], ms)[k]
  {
    AddAllExact(map[], ms, k);
    AddAllExact(map[], ns, k);
    var i :| 0 <= i < |ms| && ms[i].key == k;
    assert HasMatch(ms[i], ns);
  }

  /** The same keys with the same values, in any order, give the same map. */
  lemma AddAllSame(ms: seq<Member>, ns: seq<Member>)
    requires DistinctKeys(ms) && DistinctKeys(ns) && MembersIn(ms, ns) && MembersIn(ns, ms)
    ensures AddAll(map[], ms) == AddAll(map[], ns)
  {
    var a, b := AddAll(map[], ms), AddAll(map[], ns);
    forall k
      ensures k in a <==> k in b
      ensures k in a ==> a[k] == b[k]
    {
      if k in a {
        AddAllIn(ms, ns, k);
      }
      if k in b {
        AddAllIn(ns, ms, k);
      }
    }
  }

  /**
   Two objects with the same keys and the same values spell one value, at any depth: the order
   of the members does not show, nor does the way in which a value below is written.
   */
  lemma KeyOrderNeverMatters(ms: seq<Member>, ns: seq<Member>, depth: nat)
    requires depth < MAX_DEPTH && DistinctKeys(ms) && DistinctKeys(ns) && MembersIn(ms, ns) && MembersIn(ns, ms)
    requires forall m :: m in ms ==> SpellsMember(m, depth + 1)
    requires forall n :: n in ns ==> SpellsMember(n, depth + 1)
    ensures var v := Obj(AddAll(map[], ms));
      Spells("{" + WriteMembers(ms) + "}", v, depth) && Spells("{" + WriteMembers(ns) + "}", v, depth)
  {
    AddAllSame(ms, ns);
    ObjectSpells(ms, depth);
    ObjectSpells(ns, depth);
  }

  /** A text that spells a value decodes to it. */
  lemma SpelledDecodes(text: string, v: Json)
    requires Spells(text, v, 0)
    ensures Decode(text) == Some(v)
  {
    assert text + "" == text;
    assert ParseValue(text + "", 0) == Some((v, ""));
  }
}
