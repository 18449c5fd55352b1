/** How names, codes and line ends are put in order: what the regular expressions of the parser come to. */
module TableNames {
  import opened Sequences
  import opened TableParser

  predicate Blank(c: Chars, s: string) {
    forall k :: 0 <= k < |s| ==> c.space(s[k])
  }

  /** Words are not empty and hold no blanks. */
  predicate Words(c: Chars, ws: seq<string>) {
    forall i :: 0 <= i < |ws| ==> Word(c, ws[i])
  }

  predicate Word(c: Chars, w: string) {
    w != "" && forall k :: 0 <= k < |w| ==> !c.space(w[k])
  }

  /** Gaps are blank, and those between words are not empty. */
  predicate Gaps(c: Chars, gaps: seq<string>) {
    (forall i :: 0 <= i < |gaps| ==> Blank(c, gaps[i])) && forall i :: 0 < i < |gaps| - 1 ==> gaps[i] != ""
  }

  /** The words with one space between them. */
  function Joined(ws: seq<string>): string {
    if ws == [] then "" else if |ws| == 1 then ws[0] else ws[0] + (" " + Joined(ws[1..]))
  }

  /** The text is these words, with any blanks between and around them. */
  predicate Spells(c: Chars, s: string, gaps: seq<string>, ws: seq<string>) {
    |gaps| == |ws| + 1 && Gaps(c, gaps) && Words(c, ws) && s == Laid(gaps, ws)
  }

  // ----- every text is words and gaps -----

  lemma {:induction false} EveryTextSpells(c: Chars, s: string) returns (gaps: seq<string>, ws: seq<string>)
    ensures Spells(c, s, gaps, ws)
    ensures s != "" && !c.space(s[0]) ==> ws != [] && gaps[0] == ""
  {
    if s == "" {
      gaps, ws := [""], [];
    } else {
      var more, rest := EveryTextSpells(c, s[1..]);
      if c.space(s[0]) {
        gaps, ws := [[s[0]] + more[0]] + more[1..], rest;
        LaidMore([s[0]], gaps, more, ws);
      } else if s[1..] == "" || c.space(s[1]) {
        gaps, ws := [""] + more, [[s[0]]] + rest;
        GapFirst(c, s[1..], more, rest);
        assert gaps[1..] == more && ws[1..] == rest;
        assert s == [s[0]] + s[1..];
      } else {
        gaps, ws := more, [[s[0]] + rest[0]] + rest[1..];
        assert ws[1..] == rest[1..];
        assert s == [s[0]] + (rest[0] + Laid(more[1..], rest[1..]));
      }
    }
  }

  lemma GapFirst(c: Chars, s: string, gaps: seq<string>, ws: seq<string>)
    requires Spells(c, s, gaps, ws) && (s == "" || c.space(s[0]))
    ensures ws != [] ==> gaps[0] != ""
  {
    LaidWithWord(c, gaps, ws);
  }

  lemma LaidWithWord(c: Chars, gaps: seq<string>, ws: seq<string>)
    requires |gaps| == |ws| + 1 && Words(c, ws)
    ensures ws != [] && gaps[0] == "" ==> Laid(gaps, ws) != "" && !c.space(Laid(gaps, ws)[0])
  {
    if ws != [] && gaps[0] == "" {
      assert Laid(gaps, ws) == ws[0] + Laid(gaps[1..], ws[1..]);
    }
  }

  // ----- collapsing blanks -----

  function Squeezed(gap: string): string {
    if gap == "" then "" else " "
  }

  function AllSqueezed(gaps: seq<string>): (r: seq<string>)
    ensures |r| == |gaps| && forall i :: 0 <= i < |gaps| ==> r[i] == Squeezed(gaps[i])
  {
    if gaps == [] then [] else [Squeezed(gaps[0])] + AllSqueezed(gaps[1..])
  }

  lemma {:induction false} SkipsGap(c: Chars, gap: string, s: string, i: nat)
    requires Blank(c, gap) && (s == "" || !c.space(s[0])) && i <= |gap|
    ensures SkipSpace(c, gap + s, i) == |gap|
    decreases |gap| - i
  {
    if i < |gap| {
      assert (gap + s)[i] == gap[i];
      SkipsGap(c, gap, s, i + 1);
    } else if s != "" {
      assert (gap + s)[i] == s[0];
    }
  }

  lemma SpacedGap(c: Chars, gap: string, s: string)
    requires Blank(c, gap) && (s == "" || !c.space(s[0]))
    ensures Spaced(c, gap + s) == Squeezed(gap) + Spaced(c, s)
  {
    if gap == "" {
      assert gap + s == s;
    } else {
      SkipsGap(c, gap, s, 1);
      assert (gap + s)[0] == gap[0] && (gap + s)[|gap|..] == s;
    }
  }

  lemma {:induction false} SpacedWord(c: Chars, w: string, s: string)
    requires forall k :: 0 <= k < |w| ==> !c.space(w[k])
    ensures Spaced(c, w + s) == w + Spaced(c, s)
  {
    if w == "" {
      assert w + s == s;
    } else {
      AppendTail(w, s);
      SpacedWord(c, w[1..], s);
      assert w == [w[0]] + w[1..];
      ConcatAssoc([w[0]], w[1..], Spaced(c, s));
    }
  }

  lemma {:induction false} SpacedLaid(c: Chars, gaps: seq<string>, ws: seq<string>)
    requires |gaps| == |ws| + 1 && Gaps(c, gaps) && Words(c, ws)
    ensures Spaced(c, Laid(gaps, ws)) == Laid(AllSqueezed(gaps), ws)
    decreases |ws|
  {
    if ws == [] {
      assert gaps[0] + "" == gaps[0];
      SpacedGap(c, gaps[0], "");
    } else {
      var rest := Laid(gaps[1..], ws[1..]);
      SpacedGap(c, gaps[0], ws[0] + rest);
      SpacedWord(c, ws[0], rest);
      SpacedLaid(c, gaps[1..], ws[1..]);
      assert AllSqueezed(gaps)[1..] == AllSqueezed(gaps[1..]);
    }
  }

  lemma {:induction false} SqueezedJoins(c: Chars, gaps: seq<string>, ws: seq<string>)
    requires |gaps| == |ws| + 1 && Gaps(c, gaps) && ws != []
    ensures Laid(AllSqueezed(gaps), ws) == Squeezed(gaps[0]) + (Joined(ws) + Squeezed(gaps[|ws|]))
    decreases |ws|
  {
    var tail, last := ws[1..], Squeezed(gaps[|ws|]);
    assert AllSqueezed(gaps)[1..] == AllSqueezed(gaps[1..]);
    if |ws| > 1 {
      SqueezedJoins(c, gaps[1..], tail);
      ConcatAssoc(" ", Joined(tail), last);
      ConcatAssoc(ws[0], " " + Joined(tail), last);
    }
  }

  lemma {:induction false} JoinedEnds(c: Chars, ws: seq<string>)
    requires Words(c, ws) && ws != []
    ensures var s := Joined(ws);
      s != "" && !c.space(s[0]) && !c.space(s[|s| - 1])
    decreases |ws|
  {
    if |ws| > 1 {
      JoinedEnds(c, ws[1..]);
      assert Joined(ws)[0] == ws[0][0];
    }
  }

  lemma StripLeftGap(c: Chars, gap: string, s: string)
    requires c.space(' ') && s != "" && !c.space(s[0])
    ensures StripLeft(c, Squeezed(gap) + s) == s
  {
    if gap == "" {
      assert "" + s == s;
    } else {
      assert (" " + s)[1..] == s;
    }
  }

  lemma StripRightGap(c: Chars, s: string, gap: string)
    requires c.space(' ') && s != "" && !c.space(s[|s| - 1])
    ensures StripRight(c, s + Squeezed(gap)) == s
  {
    if gap == "" {
      assert s + "" == s;
    } else {
      assert (s + " ")[..|s|] == s;
    }
  }

  /** Whatever blanks stand between and around them, words collapse to themselves with one space between them. */
  lemma CollapseJoins(c: Chars, s: string, gaps: seq<string>, ws: seq<string>)
    requires c.space(' ') && Spells(c, s, gaps, ws)
    ensures Collapse(c, s) == Joined(ws)
  {
    SpacedLaid(c, gaps, ws);
    if ws == [] {
      assert Spaced(c, s) == Squeezed(gaps[0]);
      assert StripLeft(c, " ") == StripLeft(c, "");
    } else {
      SqueezedJoins(c, gaps, ws);
      JoinedEnds(c, ws);
      var last := Squeezed(gaps[|ws|]);
      assert (Joined(ws) + last)[0] == Joined(ws)[0];
      StripLeftGap(c, gaps[0], Joined(ws) + last);
      StripRightGap(c, Joined(ws), gaps[|ws|]);
    }
  }

  /** No blank at either end, no two side by side, and no other blank than a space. */
  predicate Neat(c: Chars, s: string) {
    && (s != "" ==> !c.space(s[0]) && !c.space(s[|s| - 1]))
    && (forall i :: 0 <= i < |s| && c.space(s[i]) ==> s[i] == ' ')
    && forall i :: 0 < i < |s| ==> !(c.space(s[i - 1]) && c.space(s[i]))
  }

  lemma {:induction false} JoinedIsNeat(c: Chars, ws: seq<string>)
    requires Words(c, ws)
    ensures Neat(c, Joined(ws))
    decreases |ws|
  {
    if |ws| > 1 {
      JoinedIsNeat(c, ws[1..]);
      JoinedEnds(c, ws[1..]);
      NeatMore(c, ws[0], Joined(ws[1..]));
    }
  }

  lemma NeatMore(c: Chars, w: string, s: string)
    requires Word(c, w) && Neat(c, s) && s != ""
    ensures Neat(c, w + (" " + s))
  {
    var t, n := w + (" " + s), |w| + 1;
    assert forall i :: 0 <= i < |w| ==> t[i] == w[i];
    assert t[|w|] == ' ' && forall i :: n <= i < |t| ==> t[i] == s[i - n];
  }

  /** A text is collapsed exactly to the words that it spells. */
  predicate Names(c: Chars, s: string, name: string, gaps: seq<string>, ws: seq<string>) {
    Spells(c, s, gaps, ws) && name == Joined(ws)
  }

  lemma CollapseExact(c: Chars, s: string, name: string)
    requires c.space(' ')
    ensures name == Collapse(c, s) <==> exists gaps, ws :: Names(c, s, name, gaps, ws)
    ensures Neat(c, Collapse(c, s))
  {
    var gaps, ws := EveryTextSpells(c, s);
    CollapseJoins(c, s, gaps, ws);
    JoinedIsNeat(c, ws);
    assert Names(c, s, Collapse(c, s), gaps, ws);
    forall g, v | Names(c, s, name, g, v)
      ensures name == Collapse(c, s)
    {
      CollapseJoins(c, s, g, v);
    }
  }

  // ----- codes once each -----

  /** The list holds every code once, where it first occurs, in the order of those places. */
  ghost predicate Firsts(codes: seq<string>, ds: seq<string>, at: seq<nat>) {
    && |at| == |ds| && (forall k :: 0 <= k < |at| ==> FirstAt(codes, ds[k], at[k]))
    && (forall j, k :: 0 <= j < k < |at| ==> at[j] < at[k])
    && forall i :: 0 <= i < |codes| ==> codes[i] in ds
  }

  predicate FirstAt(codes: seq<string>, code: string, i: nat) {
    i < |codes| && codes[i] == code && code !in codes[..i]
  }

  lemma {:induction false} DedupFirsts(codes: seq<string>) returns (at: seq<nat>)
    ensures Firsts(codes, Dedup(codes), at)
  {
    if codes == [] {
      at := [];
    } else {
      var last := |codes| - 1;
      var front := codes[..last];
      at := DedupFirsts(front);
      if codes[last] in front {
        OldCode(codes, Dedup(front), at);
      } else {
        NewCode(codes, Dedup(front), at);
        at := at + [last];
      }
    }
  }

  /** A code that was there already adds nothing, */
  lemma OldCode(codes: seq<string>, ds: seq<string>, at: seq<nat>)
    requires codes != [] && Firsts(codes[..|codes| - 1], ds, at) && codes[|codes| - 1] in codes[..|codes| - 1]
    ensures Firsts(codes, ds, at)
  {
    FirstsIn(codes, ds, at);
    var front := codes[..|codes| - 1];
    assert forall i :: 0 <= i < |front| ==> codes[i] == front[i] && front[i] in front;
  }

  /** and a new one itself. */
  lemma NewCode(codes: seq<string>, ds: seq<string>, at: seq<nat>)
    requires codes != [] && Firsts(codes[..|codes| - 1], ds, at) && codes[|codes| - 1] !in codes[..|codes| - 1]
    ensures Firsts(codes, ds + [codes[|codes| - 1]], at + [|codes| - 1])
  {
    FirstsIn(codes, ds, at);
    var front := codes[..|codes| - 1];
    assert forall i :: 0 <= i < |front| ==> codes[i] == front[i] && front[i] in front;
    assert forall k :: 0 <= k < |at| ==> FirstAt(front, ds[k], at[k]) && at[k] < |front|;
  }

  /** Places in the front are places in the whole. */
  lemma FirstsIn(codes: seq<string>, ds: seq<string>, at: seq<nat>)
    requires codes != [] && Firsts(codes[..|codes| - 1], ds, at)
    ensures forall k :: 0 <= k < |at| ==> FirstAt(codes, ds[k], at[k])
    ensures forall x :: x in codes[..|codes| - 1] ==> x in ds
  {
    var front := codes[..|codes| - 1];
    forall k | 0 <= k < |at|
      ensures FirstAt(codes, ds[k], at[k])
    {
      assert FirstAt(front, ds[k], at[k]) && front[..at[k]] == codes[..at[k]];
    }
  }

  lemma FirstPlace(codes: seq<string>, ds: seq<string>, at: seq<nat>)
    requires Firsts(codes, ds, at)
    ensures ds != [] ==> at[0] < |codes|
  {
    if ds != [] {
      assert FirstAt(codes, ds[0], at[0]);
    }
  }

  lemma {:induction false} FirstsOnce(codes: seq<string>, ds: seq<string>, at: seq<nat>)
    requires Firsts(codes, ds, at)
    ensures ds == Dedup(codes)
  {
    if codes == [] {
      FirstPlace(codes, ds, at);
    } else {
      var last := |codes| - 1;
      var front := codes[..last];
      if codes[last] in front {
        FrontFirsts(codes, ds, at);
        FirstsOnce(front, ds, at);
      } else {
        var n := LastIsNew(codes, ds, at);
        FirstsOnce(front, ds[..n], at[..n]);
        assert ds == ds[..n] + [ds[n]];
      }
    }
  }

  lemma FrontFirsts(codes: seq<string>, ds: seq<string>, at: seq<nat>)
    requires codes != [] && Firsts(codes, ds, at) && codes[|codes| - 1] in codes[..|codes| - 1]
    ensures Firsts(codes[..|codes| - 1], ds, at)
  {
    var last := |codes| - 1;
    var front := codes[..last];
    forall k | 0 <= k < |at|
      ensures FirstAt(front, ds[k], at[k])
    {
      assert FirstAt(codes, ds[k], at[k]);
      assert codes[..last] == front;
      assert at[k] != last;
      assert front[..at[k]] == codes[..at[k]];
    }
    assert forall i :: 0 <= i < |front| ==> front[i] == codes[i];
  }

  lemma TopIsLargest(at: seq<nat>, n: nat)
    requires n < |at| && forall j, k :: 0 <= j < k < |at| ==> at[j] < at[k]
    ensures n < |at| - 1 ==> at[n] < at[|at| - 1]
  {
  }

  lemma LastIsNew(codes: seq<string>, ds: seq<string>, at: seq<nat>) returns (n: nat)
    requires codes != [] && Firsts(codes, ds, at) && codes[|codes| - 1] !in codes[..|codes| - 1]
    ensures n + 1 == |ds| && ds[n] == codes[|codes| - 1] && Firsts(codes[..|codes| - 1], ds[..n], at[..n])
  {
    var last := |codes| - 1;
    var front := codes[..last];
    assert codes[last] in ds;
    n :| 0 <= n < |ds| && ds[n] == codes[last];
    assert FirstAt(codes, ds[n], at[n]);
    assert forall i :: 0 <= i < last ==> codes[i] == front[i] && front[i] in front;
    assert at[n] == last;
    assert forall k :: 0 <= k < |at| ==> FirstAt(codes, ds[k], at[k]) && at[k] <= last;
    TopIsLargest(at, n);
    forall k | 0 <= k < n
      ensures FirstAt(front, ds[..n][k], at[..n][k])
    {
      assert FirstAt(codes, ds[k], at[k]) && front[..at[k]] == codes[..at[k]];
    }
    forall i | 0 <= i < |front|
      ensures front[i] in ds[..n]
    {
      assert codes[i] in ds && front[i] != ds[n];
    }
  }

  lemma DedupExact(codes: seq<string>, ds: seq<string>)
    ensures ds == Dedup(codes) <==> exists at :: Firsts(codes, ds, at)
  {
    var at := DedupFirsts(codes);
    forall b | Firsts(codes, ds, b)
      ensures ds == Dedup(codes)
    {
      FirstsOnce(codes, ds, b);
    }
  }

  // ----- line ends, and what titles are compared by -----

  const NO_BREAK_SPACE := '\U{00A0}'

  /** Lines without line ends in them, each but the last followed by one of the three. */
  function Lines(lines: seq<string>, ends: seq<string>): string
    requires |lines| == |ends| + 1
  {
    if ends == [] then lines[0] else lines[0] + (ends[0] + Lines(lines[1..], ends[1..]))
  }

  /** An empty line between a carriage return and a newline would not be one. */
  predicate LinesOk(lines: seq<string>, ends: seq<string>) {
    && |lines| == |ends| + 1
    && (forall i :: 0 <= i < |lines| ==> '\r' !in lines[i] && '\n' !in lines[i])
    && (forall i :: 0 <= i < |ends| ==> ends[i] == "\n" || ends[i] == "\r" || ends[i] == "\r\n")
    && forall i :: 0 < i < |ends| && ends[i - 1] == "\r" && lines[i] == "" ==> ends[i] != "\n"
  }

  function Plain(s: string): (r: string)
    ensures |r| == |s| && forall i :: 0 <= i < |s| ==> r[i] == if s[i] == NO_BREAK_SPACE then ' ' else s[i]
  {
    if s == "" then "" else [if s[0] == NO_BREAK_SPACE then ' ' else s[0]] + Plain(s[1..])
  }

  function PlainLines(lines: seq<string>): string {
    if lines == [] then "" else if |lines| == 1 then Plain(lines[0]) else Plain(lines[0]) + ("\n" + PlainLines(lines[1..]))
  }

  lemma {:induction false} NormalLine(line: string, rest: string)
    requires '\r' !in line
    ensures Normal(line + rest) == Plain(line) + Normal(rest)
  {
    if line == "" {
      assert line + rest == rest;
    } else {
      AppendTail(line, rest);
      NormalLine(line[1..], rest);
      assert Plain(line) == [Plain(line)[0]] + Plain(line[1..]);
    }
  }

  lemma NormalEnd(end: string, rest: string)
    requires end == "\n" || end == "\r" || end == "\r\n"
    requires end == "\r" ==> rest == "" || rest[0] != '\n'
    ensures Normal(end + rest) == "\n" + Normal(rest)
  {
    var s := end + rest;
    if end == "\r\n" {
      assert s[0] == '\r' && s[1] == '\n' && s[2..] == rest;
    } else {
      assert s[0] == end[0] && s[1..] == rest && (|s| > 1 ==> s[1] == rest[0]);
    }
  }

  lemma LinesBegin(lines: seq<string>, ends: seq<string>)
    requires LinesOk(lines, ends) && (lines[0] == "" && ends != [] ==> ends[0] != "\n")
    ensures Lines(lines, ends) == "" || Lines(lines, ends)[0] != '\n'
  {
  }

  /** However its lines are ended, a text becomes the same lines ended by newlines, with plain spaces. */
  lemma {:induction false} NormalOfLines(lines: seq<string>, ends: seq<string>)
    requires LinesOk(lines, ends)
    ensures Normal(Lines(lines, ends)) == PlainLines(lines)
    decreases |ends|
  {
    if ends == [] {
      NormalLine(lines[0], "");
      assert lines[0] + "" == lines[0] && Plain(lines[0]) + "" == Plain(lines[0]);
    } else {
      var rest := Lines(lines[1..], ends[1..]);
      assert forall i :: 0 < i < |lines| ==> lines[i] == lines[1..][i - 1];
      assert forall i :: 0 < i < |ends| ==> ends[i] == ends[1..][i - 1];
      NormalOfLines(lines[1..], ends[1..]);
      if ends[0] == "\r" {
        LinesBegin(lines[1..], ends[1..]);
      }
      NormalLine(lines[0], ends[0] + rest);
      NormalEnd(ends[0], rest);
    }
  }

  /** Titles are compared without blanks and soft hyphens, and with one kind of dash. */
  lemma {:induction false} CompactExact(c: Chars, a: string, b: string, x: char)
    ensures Compact(c, "") == "" && Compact(c, a + b) == Compact(c, a) + Compact(c, b)
    ensures Compact(c, [x]) ==
      if c.space(x) || x == '\U{00AD}' then "" else if x == '\U{2013}' then "-" else [x]
  {
    assert [x][1..] == "";
    if a == "" {
      assert a + b == b;
    } else {
      AppendTail(a, b);
      CompactExact(c, a[1..], b, x);
    }
  }
}
