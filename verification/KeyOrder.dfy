/** JSON texts as they are written, with the members of every object in some order of their own. */
module KeyOrder {
  import opened Wrappers
  import opened Json
  import opened CanonicalJson

  /** A value with the order in which it is written. */
  datatype Written = Scalar(v: Json) | List(items: seq<Written>) | Members(fields: seq<Field>)

  datatype Field = Field(key: string, value: Written)

  function Value(w: Written): Json
    decreases w
  {
    match w
    case Scalar(v) => v
    case List(items) => Arr(Values(items))
    case Members(fields) => Obj(AddAll(map[], AsMembers(fields)))
  }

  function Values(items: seq<Written>): (vs: seq<Json>)
    ensures |vs| == |items|
    decreases items
  {
    if items == [] then [] else [Value(items[0])] + Values(items[1..])
  }

  function Text(w: Written): string
    decreases w
  {
    match w
    case Scalar(v) => Print(v)
    case List(items) => "[" + ItemsText(items) + "]"
    case Members(fields) => "{" + WriteMembers(AsMembers(fields)) + "}"
  }

  function ItemsText(items: seq<Written>): string
    decreases items
  {
    if items == [] then ""
    else if |items| == 1 then Text(items[0])
    else Text(items[0]) + "," + ItemsText(items[1..])
  }

  function AsMembers(fields: seq<Field>): (ms: seq<Member>)
    ensures |ms| == |fields|
    decreases fields
  {
    if fields == [] then []
    else [Member(fields[0].key, Text(fields[0].value), Value(fields[0].value))] + AsMembers(fields[1..])
  }

  lemma {:induction false} MemberAt(fields: seq<Field>, i: nat)
    requires i < |fields|
    ensures AsMembers(fields)[i] == Member(fields[i].key, Text(fields[i].value), Value(fields[i].value))
  {
    if i > 0 {
      MemberAt(fields[1..], i - 1);
    }
  }

  lemma {:induction false} ValueAt(items: seq<Written>, i: nat)
    requires i < |items|
    ensures Values(items)[i] == Value(items[i])
  {
    if i > 0 {
      ValueAt(items[1..], i - 1);
    }
  }

  /** What a decoder can read: valid scalars, limited nesting, and each key of an object once. */
  ghost predicate Legal(w: Written, depth: nat)
    decreases w, 0
  {
    match w
    case Scalar(v) => WellFormed(v, depth)
    case List(items) => depth < MAX_DEPTH && AllLegal(items, depth + 1)
    case Members(fields) =>
      && depth < MAX_DEPTH && DistinctFields(fields)
      && forall i :: 0 <= i < |fields| ==> Legal(fields[i].value, depth + 1)
  }

  ghost predicate AllLegal(items: seq<Written>, depth: nat)
    decreases items, 1
  {
    items != [] ==> Legal(items[0], depth) && AllLegal(items[1..], depth)
  }

  predicate DistinctFields(fields: seq<Field>) {
    forall i, j :: 0 <= i < j < |fields| ==> fields[i].key != fields[j].key
  }

  /** The same value written with the members of its objects, at every level, in another order. */
  ghost predicate Reordered(w: Written, u: Written)
    decreases w, 0
  {
    match w
    case Scalar(v) => u == w
    case List(items) => u.List? && AllReordered(items, u.items)
    case Members(fields) => u.Members? && Moved(fields, u.fields) && MovedBack(fields, u.fields)
  }

  ghost predicate AllReordered(items: seq<Written>, others: seq<Written>)
    decreases items, 1
  {
    && |others| == |items|
    && (items != [] ==> Reordered(items[0], others[0]) && AllReordered(items[1..], others[1..]))
  }

  /** Every field stands somewhere among the others. */
  ghost predicate Moved(fields: seq<Field>, others: seq<Field>)
    decreases fields, 1
  {
    forall i :: 0 <= i < |fields| ==> exists j :: 0 <= j < |others| && FieldMoved(fields[i], others[j])
  }

  ghost predicate MovedBack(fields: seq<Field>, others: seq<Field>)
    decreases fields, 1
  {
    forall j :: 0 <= j < |others| ==> exists i :: 0 <= i < |fields| && FieldMoved(fields[i], others[j])
  }

  ghost predicate FieldMoved(f: Field, g: Field)
    decreases f, 0
  {
    f.key == g.key && Reordered(f.value, g.value)
  }

  lemma {:induction false} ReorderedSameValue(w: Written, u: Written, depth: nat)
    requires Legal(w, depth) && Legal(u, depth) && Reordered(w, u)
    ensures Value(w) == Value(u)
    decreases w, 1
  {
    match w
    case Scalar(_) =>
    case List(items) => ListsSame(items, u.items, depth + 1);
    case Members(fields) => FieldsSame(fields, u.fields, depth + 1);
  }

  lemma {:induction false} ListsSame(items: seq<Written>, others: seq<Written>, depth: nat)
    requires AllReordered(items, others) && AllLegal(items, depth) && AllLegal(others, depth)
    ensures Values(items) == Values(others)
    decreases items, 0
  {
    if items != [] {
      ReorderedSameValue(items[0], others[0], depth);
      ListsSame(items[1..], others[1..], depth);
    }
  }

  ghost predicate FieldsLegal(fields: seq<Field>, depth: nat) {
    forall i :: 0 <= i < |fields| ==> Legal(fields[i].value, depth)
  }

  lemma {:induction false} FieldSame(fields: seq<Field>, i: nat, others: seq<Field>, j: nat, depth: nat)
    requires i < |fields| && j < |others| && FieldMoved(fields[i], others[j])
    requires FieldsLegal(fields, depth) && FieldsLegal(others, depth)
    ensures HasMatch(AsMembers(fields)[i], AsMembers(others)) && HasMatch(AsMembers(others)[j], AsMembers(fields))
    decreases fields, 0
  {
    ReorderedSameValue(fields[i].value, others[j].value, depth);
    MatchAt(fields, i, others, j);
    MatchAt(others, j, fields, i);
  }

  lemma {:induction false} MovedMatches(fields: seq<Field>, others: seq<Field>, depth: nat)
    requires Moved(fields, others) && FieldsLegal(fields, depth) && FieldsLegal(others, depth)
    ensures MembersIn(AsMembers(fields), AsMembers(others))
    decreases fields, 1
  {
    forall i | 0 <= i < |AsMembers(fields)|
      ensures HasMatch(AsMembers(fields)[i], AsMembers(others))
    {
      var j :| 0 <= j < |others| && FieldMoved(fields[i], others[j]);
      FieldSame(fields, i, others, j, depth);
    }
  }

  lemma {:induction false} MovedBackMatches(fields: seq<Field>, others: seq<Field>, depth: nat)
    requires MovedBack(fields, others) && FieldsLegal(fields, depth) && FieldsLegal(others, depth)
    ensures MembersIn(AsMembers(others), AsMembers(fields))
    decreases fields, 1
  {
    forall j | 0 <= j < |AsMembers(others)|
      ensures HasMatch(AsMembers(others)[j], AsMembers(fields))
    {
      var i :| 0 <= i < |fields| && FieldMoved(fields[i], others[j]);
      FieldSame(fields, i, others, j, depth);
    }
  }

  /** Fields moved about give members with the same keys and values. */
  lemma {:induction false} FieldsSame(fields: seq<Field>, others: seq<Field>, depth: nat)
    requires DistinctFields(fields) && DistinctFields(others) && Moved(fields, others) && MovedBack(fields, others)
    requires FieldsLegal(fields, depth) && FieldsLegal(others, depth)
    ensures AddAll(map[], AsMembers(fields)) == AddAll(map[], AsMembers(others))
    decreases fields, 2
  {
    MovedMatches(fields, others, depth);
    MovedBackMatches(fields, others, depth);
    KeysStayDistinct(fields);
    KeysStayDistinct(others);
    AddAllSame(AsMembers(fields), AsMembers(others));
  }

  lemma MatchAt(fields: seq<Field>, i: nat, others: seq<Field>, j: nat)
    requires i < |fields| && j < |others| && others[j].key == fields[i].key && Value(others[j].value) == Value(fields[i].value)
    ensures HasMatch(AsMembers(fields)[i], AsMembers(others))
  {
    MemberAt(fields, i);
    MemberAt(others, j);
    assert AsMembers(others)[j].key == AsMembers(fields)[i].key;
  }

  lemma KeysStayDistinct(fields: seq<Field>)
    requires DistinctFields(fields)
    ensures DistinctKeys(AsMembers(fields))
  {
    forall i, j | 0 <= i < j < |fields|
      ensures AsMembers(fields)[i].key != AsMembers(fields)[j].key
    {
      MemberAt(fields, i);
      MemberAt(fields, j);
    }
  }

  // ----- the text of a written value spells it -----

  lemma {:induction false} TextSpells(w: Written, depth: nat)
    requires Legal(w, depth)
    ensures Spells(Text(w), Value(w), depth)
    decreases w, 1
  {
    match w
    case Scalar(v) => PrintSpells(v, depth);
    case List(items) =>
      if items == [] {
        EmptyArraySpells(depth);
      } else {
        ItemsSpell(items, depth + 1);
        ItemsFront(items, depth + 1);
        ArraySpells(ItemsText(items), Values(items), depth);
      }
    case Members(fields) =>
      forall m | m in AsMembers(fields)
        ensures SpellsMember(m, depth + 1)
      {
        var i :| 0 <= i < |fields| && AsMembers(fields)[i] == m;
        MemberAt(fields, i);
        TextSpells(fields[i].value, depth + 1);
      }
      ObjectSpells(AsMembers(fields), depth);
  }

  lemma {:induction false} ItemsSpell(items: seq<Written>, depth: nat)
    requires items != [] && AllLegal(items, depth)
    ensures SpellsItems(ItemsText(items), Values(items), depth)
    decreases items, 2
  {
    TextSpells(items[0], depth);
    if |items| == 1 {
      OneItemSpells(Text(items[0]), Value(items[0]), depth);
      assert Values(items) == [Value(items[0])];
    } else {
      ItemsSpell(items[1..], depth);
      MoreItemsSpell(Text(items[0]), Value(items[0]), ItemsText(items[1..]), Values(items[1..]), depth);
    }
  }

  lemma TextFront(w: Written, depth: nat)
    requires Legal(w, depth)
    ensures Text(w) != "" && !IsSpace(Text(w)[0]) && Text(w)[0] != ']'
  {
    match w
    case Scalar(v) => PrintFront(v, depth);
    case List(_) =>
    case Members(_) =>
  }

  lemma ItemsFront(items: seq<Written>, depth: nat)
    requires items != [] && AllLegal(items, depth)
    ensures var s := ItemsText(items); s != "" && !IsSpace(s[0]) && s[0] != ']'
  {
    TextFront(items[0], depth);
    if |items| > 1 {
      assert ItemsText(items)[0] == Text(items[0])[0];
    }
  }

  lemma WrittenDecodes(w: Written)
    requires Legal(w, 0)
    ensures Decode(Text(w)) == Some(Value(w))
  {
    TextSpells(w, 0);
    SpelledDecodes(Text(w), Value(w));
  }

  /** However the members of the objects of a value are ordered, at every level, its canonical text is the same. */
  lemma CanonicalIgnoresOrder(fits: string -> bool, w: Written, u: Written)
    requires Legal(w, 0) && Legal(u, 0) && Reordered(w, u)
    ensures Decode(Text(w)) == Some(Value(w)) && Decode(Text(u)) == Some(Value(w))
    ensures Canonical(fits, Text(w)) == Canonical(fits, Text(u))
  {
    ReorderedSameValue(w, u, 0);
    WrittenDecodes(w);
    WrittenDecodes(u);
  }
}
