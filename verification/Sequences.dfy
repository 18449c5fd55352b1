/** Facts about concatenation that the solver is better given than left to find. */
module Sequences {
  lemma ConcatAssoc<T>(a: seq<T>, b: seq<T>, c: seq<T>)
    ensures (a + b) + c == a + (b + c)
  {
  }

  lemma AppendTail<T>(a: seq<T>, b: seq<T>)
    requires a != []
    ensures (a + b)[0] == a[0] && (a + b)[1..] == a[1..] + b
  {
  }

  /** Words with gaps before, between and after them. */
  function Laid(gaps: seq<string>, ws: seq<string>): string
    requires |gaps| == |ws| + 1
  {
    if ws == [] then gaps[0] else gaps[0] + (ws[0] + Laid(gaps[1..], ws[1..]))
  }

  lemma LaidMore(gap: string, more: seq<string>, gaps: seq<string>, ws: seq<string>)
    requires |gaps| == |ws| + 1 && more == [gap + gaps[0]] + gaps[1..]
    ensures Laid(more, ws) == gap + Laid(gaps, ws)
  {
    assert more[1..] == gaps[1..];
  }
}
