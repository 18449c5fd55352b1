/** CanonicalJSON: the recursion that appends the canonical text of a value to a buffer. */
module CanonicalWriter {
  import opened Sequences
  import opened Wrappers
  import opened Ordering
  import opened Json
  import opened CanonicalJson
  import Sorting

  /** bytes.Buffer, as the text written so far. */
  class Buffer {
    var text: string

    constructor ()
      ensures text == ""
    {
      text := "";
    }

    method WriteString(s: string)
      modifies this
      ensures text == old(text) + s
    {
      text := text + s;
    }
  }

  lemma PrintItemsCons(items: seq<Json>)
    requires |items| > 1
    ensures PrintItems(items) == Print(items[0]) + "," + PrintItems(items[1..])
  {
  }

  lemma {:induction false} PrintItemsSnoc(items: seq<Json>, i: nat)
    requires i < |items|
    ensures PrintItems(items[..i + 1]) == PrintItems(items[..i]) + ((if i > 0 then "," else "") + Print(items[i]))
  {
    assert items[..1] == [items[0]];
    if i > 0 {
      var tail := items[1..];
      assert items[..i + 1][1..] == tail[..i] && items[..i][1..] == tail[..i - 1];
      PrintItemsCons(items[..i + 1]);
      if i == 1 {
        assert tail[..1] == [tail[0]];
      } else {
        PrintItemsSnoc(tail, i - 1);
        PrintItemsCons(items[..i]);
        ConcatAssoc(Print(items[0]) + ",", PrintItems(tail[..i - 1]), "," + Print(items[i]));
      }
    }
  }

  function MemberText(v: Json, key: string): string
    requires v.Obj? && key in v.members
  {
    Quote(key) + ":" + Print(v.members[key])
  }

  lemma PrintMembersCons(v: Json, keys: seq<string>)
    requires v.Obj? && (forall k :: k in keys ==> k in v.members) && |keys| > 1
    ensures PrintMembers(v, keys) == MemberText(v, keys[0]) + "," + PrintMembers(v, keys[1..])
  {
  }

  lemma {:induction false} PrintMembersSnoc(v: Json, keys: seq<string>, i: nat)
    requires v.Obj? && (forall k :: k in keys ==> k in v.members) && i < |keys|
    ensures PrintMembers(v, keys[..i + 1])
         == PrintMembers(v, keys[..i]) + ((if i > 0 then "," else "") + MemberText(v, keys[i]))
    decreases |keys|
  {
    assert keys[..1] == [keys[0]];
    if i == 1 {
      assert keys[..2][1..] == [keys[1]];
      PrintMembersCons(v, keys[..2]);
    } else if i > 1 {
      PrintMembersSnoc(v, keys[1..], i - 1);
      OneMemberMore(v, keys, i);
    }
  }

  lemma OneMemberMore(v: Json, keys: seq<string>, i: nat)
    requires v.Obj? && (forall k :: k in keys ==> k in v.members) && 1 < i < |keys|
    requires var tail := keys[1..];
      PrintMembers(v, tail[..i]) == PrintMembers(v, tail[..i - 1]) + ("," + MemberText(v, keys[i]))
    ensures PrintMembers(v, keys[..i + 1]) == PrintMembers(v, keys[..i]) + ("," + MemberText(v, keys[i]))
  {
    var tail := keys[1..];
    PrintMembersCons(v, keys[..i + 1]);
    PrintMembersCons(v, keys[..i]);
    assert keys[..i + 1][1..] == tail[..i] && keys[..i][1..] == tail[..i - 1];
    ConcatAssoc(MemberText(v, keys[0]) + ",", PrintMembers(v, tail[..i - 1]), "," + MemberText(v, keys[i]));
  }

  function Itself(s: string): string {
    s
  }

  /** Collects the keys of a map, in whatever order it gives them, and sorts them. */
  method SortedKeys(members: map<string, Json>) returns (keys: seq<string>)
    requires Ranking(CharRank)
    ensures keys == Sorted(CharRank, members.Keys)
  {
    var all: seq<string> := [];
    var pending := members.Keys;
    while pending != {}
      invariant pending <= members.Keys
      invariant forall k :: k in all <==> k in members && k !in pending
      invariant Sorting.DistinctNames(Itself, all)
      decreases |pending|
    {
      var k :| k in pending;
      all := all + [k];
      pending := pending - {k};
    }
    keys := Sorting.SortSlice(Sorting.ByName(Itself), all);
    SortedIs(members.Keys, all, keys);
  }

  lemma SortedIs(names: set<string>, all: seq<string>, keys: seq<string>)
    requires Ranking(CharRank) && Sorting.DistinctNames(Itself, all) && forall k :: k in all <==> k in names
    requires multiset(keys) == multiset(all) && Sorting.InOrder(Sorting.ByName(Itself), keys)
    ensures keys == Sorted(CharRank, names)
  {
    forall k
      ensures k in keys <==> k in names
    {
      assert k in multiset(keys) <==> k in multiset(all);
    }
    forall i, j | 0 <= i < j < |keys|
      ensures Less(CharRank, keys[i], keys[j])
    {
      Sorting.NotLess(keys[j], keys[i]);
      StillApart(all, keys, i, j);
    }
    SortedUnique(CharRank, names, keys);
  }

  lemma StillApart(all: seq<string>, keys: seq<string>, i: nat, j: nat)
    requires Sorting.DistinctNames(Itself, all) && multiset(keys) == multiset(all) && i < j < |keys|
    ensures keys[i] != keys[j]
  {
    var front, back := keys[..j], keys[j..];
    assert keys == front + back && multiset(keys) == multiset(front) + multiset(back);
    assert keys[i] == front[i] && keys[j] == back[0];
    AtMostOnce(all, keys[i]);
  }

  lemma {:induction false} AtMostOnce(all: seq<string>, k: string)
    requires Sorting.DistinctNames(Itself, all)
    ensures multiset(all)[k] <= 1
  {
    if all != [] {
      var tail := all[1..];
      assert all == [all[0]] + tail;
      assert forall i :: 0 <= i < |tail| ==> tail[i] == all[i + 1];
      AtMostOnce(tail, k);
      assert all[0] !in tail;
    }
  }

  /** Appends the canonical text of a value, unless one of its numbers does not fit; then the buffer is given up. */
  method WriteCanonical(out: Buffer, fits: string -> bool, v: Json) returns (ok: bool)
    modifies out
    ensures ok == AllFit(fits, v)
    ensures ok ==> out.text == old(out.text) + Print(v)
    decreases v, 1, 0
  {
    ok := true;
    match v
    case Null => out.WriteString("null");
    case Bool(b) => out.WriteString(if b then "true" else "false");
    case Str(s) => out.WriteString(Quote(s));
    case Num(text) =>
      if !fits(text) {
        return false;
      }
      out.WriteString(text);
    case Arr(items) =>
      out.WriteString("[");
      ok := WriteItems(out, fits, v);
      if !ok {
        return false;
      }
      out.WriteString("]");
      ConcatAssoc(old(out.text) + "[", PrintItems(items), "]");
      ConcatAssoc(old(out.text), "[", PrintItems(items) + "]");
      ConcatAssoc("[", PrintItems(items), "]");
    case Obj(members) =>
      RankingChars();
      SortedElements(CharRank, members.Keys);
      var keys := SortedKeys(members);
      out.WriteString("{");
      ok := WriteMembers(out, fits, v, keys);
      if !ok {
        return false;
      }
      out.WriteString("}");
      ConcatAssoc(old(out.text) + "{", PrintMembers(v, keys), "}");
      ConcatAssoc(old(out.text), "{", PrintMembers(v, keys) + "}");
      ConcatAssoc("{", PrintMembers(v, keys), "}");
  }

  method WriteItems(out: Buffer, fits: string -> bool, v: Json) returns (ok: bool)
    requires v.Arr?
    modifies out
    ensures ok == AllFit(fits, v)
    ensures ok ==> out.text == old(out.text) + PrintItems(v.items)
    decreases v, 0, 1
  {
    var i := 0;
    ghost var begun := out.text;
    while i < |v.items|
      invariant i <= |v.items| && forall j :: 0 <= j < i ==> AllFit(fits, v.items[j])
      invariant out.text == begun + PrintItems(v.items[..i])
    {
      PrintItemsSnoc(v.items, i);
      var done := PrintItems(v.items[..i]);
      ConcatAssoc(begun, done, (if i > 0 then "," else "") + Print(v.items[i]));
      ConcatAssoc(begun + done, if i > 0 then "," else "", Print(v.items[i]));
      if i > 0 {
        out.WriteString(",");
      }
      var fit := WriteCanonical(out, fits, v.items[i]);
      if !fit {
        assert v.items[i] in v.items;
        return false;
      }
      i := i + 1;
    }
    assert v.items[..i] == v.items;
    ok := true;
  }

  ghost predicate KeysFit(fits: string -> bool, v: Json, keys: seq<string>) {
    v.Obj? && forall k :: k in keys ==> k in v.members && AllFit(fits, v.members[k])
  }

  /** The buffer after the members of some keys. */
  ghost predicate MembersWritten(begun: string, text: string, v: Json, keys: seq<string>) {
    v.Obj? && (forall k :: k in keys ==> k in v.members) && text == begun + PrintMembers(v, keys)
  }

  lemma OneMoreMember(begun: string, before: string, after: string, v: Json, keys: seq<string>, i: nat)
    requires i < |keys| && MembersWritten(begun, before, v, keys[..i]) && (forall k :: k in keys ==> k in v.members)
    requires after == before + (if i > 0 then "," else "") + MemberText(v, keys[i])
    ensures MembersWritten(begun, after, v, keys[..i + 1])
  {
    PrintMembersSnoc(v, keys, i);
    var done, comma, member := PrintMembers(v, keys[..i]), if i > 0 then "," else "", MemberText(v, keys[i]);
    ConcatAssoc(begun, done, comma + member);
    ConcatAssoc(begun + done, comma, member);
  }

  lemma OneMoreFits(fits: string -> bool, v: Json, keys: seq<string>, i: nat)
    requires i < |keys| && KeysFit(fits, v, keys[..i])
    requires keys[i] in v.members && AllFit(fits, v.members[keys[i]])
    ensures KeysFit(fits, v, keys[..i + 1])
  {
    assert keys[..i + 1] == keys[..i] + [keys[i]];
  }

  method WriteMembers(out: Buffer, fits: string -> bool, v: Json, keys: seq<string>) returns (ok: bool)
    requires v.Obj? && forall k :: k in keys <==> k in v.members
    modifies out
    ensures ok == AllFit(fits, v)
    ensures ok ==> out.text == old(out.text) + PrintMembers(v, keys)
    decreases v, 0, 1
  {
    var i := 0;
    ghost var begun := out.text;
    assert begun == begun + "";
    while i < |keys|
      invariant i <= |keys| && KeysFit(fits, v, keys[..i]) && MembersWritten(begun, out.text, v, keys[..i])
    {
      ghost var before := out.text;
      assert keys[i] in keys;
      if i > 0 {
        out.WriteString(",");
      }
      var fit := WriteMember(out, fits, v, keys[i]);
      if !fit {
        return false;
      }
      assert before + "" == before;
      OneMoreMember(begun, before, out.text, v, keys, i);
      OneMoreFits(fits, v, keys, i);
      i := i + 1;
    }
    assert keys[..i] == keys;
    ok := true;
  }

  method WriteMember(out: Buffer, fits: string -> bool, v: Json, key: string) returns (ok: bool)
    requires v.Obj? && key in v.members
    modifies out
    ensures ok == AllFit(fits, v.members[key])
    ensures ok ==> out.text == old(out.text) + MemberText(v, key)
    decreases v, 0, 0
  {
    out.WriteString(Quote(key));
    out.WriteString(":");
    ok := WriteCanonical(out, fits, v.members[key]);
    ConcatAssoc(old(out.text), Quote(key), ":");
    ConcatAssoc(old(out.text), Quote(key) + ":", Print(v.members[key]));
  }

  /** Decode, then write: the canonical text of the input, if it decodes and its numbers fit. */
  method CanonicalJSON(fits: string -> bool, input: string) returns (r: Option<string>)
    ensures r == Canonical(fits, input)
  {
    var value := Decode(input);
    if value.None? {
      return None;
    }
    var out := new Buffer();
    var ok := WriteCanonical(out, fits, value.value);
    if !ok {
      return None;
    }
    assert "" + Print(value.value) == Print(value.value);
    r := Some(out.text);
  }
}
