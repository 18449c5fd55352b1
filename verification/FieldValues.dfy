/** What a payload value is worth as a number and as a text, told without loops. */
module FieldValues {
  import opened Wrappers
  import opened Json
  import opened MatchKey

  /** A value worth a number, in any of the forms a number can have. */
  predicate Worth(e: Env, v: Value, x: real) {
    match v
    case Int(i) => i as real == x
    case Float(y) => y == x
    case Tree(j) => j.Num? && e.n.rat(j.text) == Some(x)
  }

  ghost predicate Blank(u: Unicode, s: string) {
    forall i :: 0 <= i < |s| ==> u.isSpace(s[i])
  }

  /** The text without the spaces around it. */
  ghost predicate Trimmed(u: Unicode, s: string, t: string) {
    && (t != "" ==> !u.isSpace(t[0]) && !u.isSpace(t[|t| - 1]))
    && exists before, after :: Blank(u, before) && Blank(u, after) && s == before + t + after
  }

  lemma {:induction false} TrimLeftCuts(u: Unicode, s: string)
    ensures var n := |s| - |TrimLeft(u, s)|;
      TrimLeft(u, s) == s[n..] && Blank(u, s[..n])
  {
    if s != "" && u.isSpace(s[0]) {
      TrimLeftCuts(u, s[1..]);
      var n := |s[1..]| - |TrimLeft(u, s[1..])|;
      assert s[..n + 1] == [s[0]] + s[1..][..n] && s[1..][n..] == s[n + 1..];
    }
  }

  lemma {:induction false} TrimRightCuts(u: Unicode, s: string)
    ensures Blank(u, s[|TrimRight(u, s)|..])
    ensures TrimRight(u, s) == "" ==> Blank(u, s)
  {
    if s != "" && u.isSpace(s[|s| - 1]) {
      TrimRightCuts(u, s[..|s| - 1]);
      var n := |TrimRight(u, s)|;
      assert s[n..] == s[..|s| - 1][n..] + [s[|s| - 1]];
    }
  }

  lemma TrimIsTrimmed(u: Unicode, s: string)
    ensures Trimmed(u, s, Trim(u, s))
  {
    TrimLeftCuts(u, s);
    var left := TrimLeft(u, s);
    TrimRightCuts(u, left);
    var n, t := |s| - |left|, Trim(u, s);
    assert left == t + left[|t|..];
    assert s == s[..n] + t + left[|t|..];
    assert t != "" ==> t[0] == left[0];
  }

  /** The first character that is no space is where the text begins, and the last where it ends. */
  lemma BlankFront(u: Unicode, before: string, t: string, after: string)
    requires t != "" && Blank(u, before)
    ensures var s := before + t + after;
      (forall i :: 0 <= i < |before| ==> u.isSpace(s[i])) && s[|before|] == t[0]
  {
  }

  lemma BlankBack(u: Unicode, before: string, t: string, after: string)
    requires t != "" && Blank(u, after)
    ensures var s := before + t + after;
      && (forall i :: |s| - |after| <= i < |s| ==> u.isSpace(s[i]))
      && s[|s| - |after| - 1] == t[|t| - 1]
  {
  }

  /** There is one such text only. */
  lemma TrimExact(u: Unicode, s: string, t: string)
    ensures Trimmed(u, s, t) <==> t == Trim(u, s)
  {
    TrimIsTrimmed(u, s);
    if Trimmed(u, s, t) {
      TrimmedOnce(u, s, t, Trim(u, s));
    }
  }

  lemma TrimmedOnce(u: Unicode, s: string, t: string, v: string)
    requires Trimmed(u, s, t) && Trimmed(u, s, v)
    ensures t == v
  {
    var a, b :| Blank(u, a) && Blank(u, b) && s == a + t + b;
    var c, d :| Blank(u, c) && Blank(u, d) && s == c + v + d;
    if t != "" && v != "" {
      Starts(u, s, a, t, b, c, v, d);
      Ends(u, s, a, t, b, c, v, d);
      assert t == s[|a|..|s| - |b|] && v == s[|c|..|s| - |d|];
    } else if t != "" {
      BlankFront(u, a, t, b);
    } else if v != "" {
      BlankFront(u, c, v, d);
    }
  }

  lemma Starts(u: Unicode, s: string, a: string, t: string, b: string, c: string, v: string, d: string)
    requires Blank(u, a) && Blank(u, c) && s == a + t + b == c + v + d
    requires t != "" && v != "" && !u.isSpace(t[0]) && !u.isSpace(v[0])
    ensures |a| == |c|
  {
    BlankFront(u, a, t, b);
    BlankFront(u, c, v, d);
  }

  lemma Ends(u: Unicode, s: string, a: string, t: string, b: string, c: string, v: string, d: string)
    requires Blank(u, b) && Blank(u, d) && s == a + t + b == c + v + d
    requires t != "" && v != "" && !u.isSpace(t[|t| - 1]) && !u.isSpace(v[|v| - 1])
    ensures |b| == |d|
  {
    BlankBack(u, a, t, b);
    BlankBack(u, c, v, d);
  }

  lemma TrimOfBlank(u: Unicode, s: string)
    ensures Trim(u, s) == "" <==> Blank(u, s)
  {
    TrimExact(u, s, "");
    if Blank(u, s) {
      assert s == s + "" + "" && Blank(u, "");
    }
  }
}
