/**
 The expression tree behind an amount and its Excel text. Reading the text with the
 usual precedence gives the value of the tree, although only sums in products are bracketed.
 */
module Formula {
  import opened Sequences
  import opened Wrappers

  datatype Op = Sum | Product

  datatype Node = Leaf(input: nat) | Branch(op: Op, kids: seq<Node>)

  function Unit(op: Op): real {
    if op == Sum then 0.0 else 1.0
  }

  function Combine(op: Op, x: real, y: real): real {
    if op == Sum then x + y else x * y
  }

  predicate InRange(n: Node, count: nat) {
    match n
    case Leaf(i) => i < count
    case Branch(_, kids) => forall k :: 0 <= k < |kids| ==> InRange(kids[k], count)
  }

  /** The exact value of a tree over the values of its inputs. */
  function Eval(values: seq<real>, n: Node): real
    requires InRange(n, |values|)
    decreases n, 1, 0
  {
    match n
    case Leaf(i) => values[i]
    case Branch(_, _) => EvalFrom(values, n, 0)
  }

  /** The sum or product of the children from k on. */
  function EvalFrom(values: seq<real>, n: Node, k: nat): real
    requires n.Branch? && InRange(n, |values|) && k <= |n.kids|
    decreases n, 0, |n.kids| - k
  {
    if k == |n.kids| then Unit(n.op) else Combine(n.op, Eval(values, n.kids[k]), EvalFrom(values, n, k + 1))
  }

  lemma CombineAssoc(op: Op, x: real, y: real, z: real)
    ensures Combine(op, Combine(op, x, y), z) == Combine(op, x, Combine(op, y, z))
  {
  }

  /** The recursion of Eval, with an accumulator at each node. */
  method EvalTree(values: seq<real>, n: Node) returns (out: real)
    requires InRange(n, |values|)
    ensures out == Eval(values, n)
    decreases n
  {
    if n.Leaf? {
      return values[n.input];
    }
    out := Unit(n.op);
    var k := 0;
    while k < |n.kids|
      invariant k <= |n.kids| && Combine(n.op, out, EvalFrom(values, n, k)) == Eval(values, n)
    {
      var x := EvalTree(values, n.kids[k]);
      CombineAssoc(n.op, out, x, EvalFrom(values, n, k + 1));
      out := Combine(n.op, out, x);
      k := k + 1;
    }
  }

  // ----- the text -----

  function Sign(op: Op): string {
    if op == Sum then "+" else "*"
  }

  /** Cell addresses that cannot run into the signs around them. */
  predicate Atomic(s: string) {
    s != "" && forall i :: 0 <= i < |s| ==> RefChar(s[i])
  }

  predicate RefChar(c: char) {
    c != '+' && c != '*' && c != '(' && c != ')' && c != ','
  }

  function Render(ref: nat -> string, n: Node, nested: bool): string
    decreases n, 1, 0
  {
    match n
    case Leaf(i) => ref(i)
    case Branch(op, _) =>
      var text := RenderFrom(ref, n, 0);
      if op == Sum && nested then "(" + text + ")" else text
  }

  function RenderFrom(ref: nat -> string, n: Node, k: nat): string
    requires n.Branch? && k <= |n.kids|
    decreases n, 0, |n.kids| - k
  {
    if k == |n.kids| then ""
    else
      var part := Render(ref, n.kids[k], n.op == Product);
      if k + 1 == |n.kids| then part else part + (Sign(n.op) + RenderFrom(ref, n, k + 1))
  }

  function Excel(ref: nat -> string, root: Node): string {
    "ROUND(" + Render(ref, root, false) + ",2)"
  }

  function Join(parts: seq<string>, sep: string): string {
    if parts == [] then "" else if |parts| == 1 then parts[0] else parts[0] + (sep + Join(parts[1..], sep))
  }

  lemma {:induction false} JoinsParts(ref: nat -> string, n: Node, k: nat, parts: seq<string>)
    requires n.Branch? && k <= |n.kids| && |parts| == |n.kids| - k
    requires forall i :: 0 <= i < |parts| ==> parts[i] == Render(ref, n.kids[k + i], n.op == Product)
    ensures Join(parts, Sign(n.op)) == RenderFrom(ref, n, k)
    decreases |parts|
  {
    if |parts| > 1 {
      JoinsParts(ref, n, k + 1, parts[1..]);
    }
  }

  /** The recursion of Excel: the texts of the children, joined by the sign. */
  method RenderTree(ref: nat -> string, n: Node, nested: bool) returns (text: string)
    ensures text == Render(ref, n, nested)
    decreases n
  {
    if n.Leaf? {
      return ref(n.input);
    }
    var parts: seq<string> := [];
    var k := 0;
    while k < |n.kids|
      invariant k <= |n.kids| && |parts| == k
      invariant forall i :: 0 <= i < k ==> parts[i] == Render(ref, n.kids[i], n.op == Product)
    {
      var part := RenderTree(ref, n.kids[k], n.op == Product);
      parts := parts + [part];
      k := k + 1;
    }
    JoinsParts(ref, n, 0, parts);
    text := Join(parts, Sign(n.op));
    if n.op == Sum && nested {
      text := "(" + text + ")";
    }
  }

  // ----- reading the text: sums of products of cells and brackets -----

  function RefLength(s: string): (n: nat)
    ensures n <= |s|
  {
    if s == "" || !RefChar(s[0]) then 0 else 1 + RefLength(s[1..])
  }

  predicate StartsWith(s: string, c: char) {
    s != "" && s[0] == c
  }

  /** A cell, or a sum in brackets. */
  function ReadFactor(cell: string -> real, s: string): (r: Option<(real, string)>)
    ensures r.Some? ==> |r.value.1| < |s|
    decreases |s|, 0
  {
    if StartsWith(s, '(') then
      match ReadTerms(cell, 0.0, s[1..])
      case Some((x, rest)) => if StartsWith(rest, ')') then Some((x, rest[1..])) else None
      case None => None
    else
      var n := RefLength(s);
      if n == 0 then None else Some((cell(s[..n]), s[n..]))
  }

  /** Factors, multiplied to what is read so far. */
  function ReadFactors(cell: string -> real, sofar: real, s: string): (r: Option<(real, string)>)
    ensures r.Some? ==> |r.value.1| < |s|
    decreases |s|, 1
  {
    match ReadFactor(cell, s)
    case Some((x, rest)) => MoreFactors(cell, Combine(Product, sofar, x), rest)
    case None => None
  }

  function MoreFactors(cell: string -> real, sofar: real, s: string): (r: Option<(real, string)>)
    ensures r.Some? ==> |r.value.1| <= |s|
    decreases |s|, 2
  {
    if StartsWith(s, '*') then ReadFactors(cell, sofar, s[1..]) else Some((sofar, s))
  }

  /** Products, added to what is read so far. */
  function ReadTerms(cell: string -> real, sofar: real, s: string): (r: Option<(real, string)>)
    ensures r.Some? ==> |r.value.1| < |s|
    decreases |s|, 3
  {
    match ReadFactors(cell, 1.0, s)
    case Some((x, rest)) => MoreTerms(cell, sofar + x, rest)
    case None => None
  }

  function MoreTerms(cell: string -> real, sofar: real, s: string): (r: Option<(real, string)>)
    ensures r.Some? ==> |r.value.1| <= |s|
    decreases |s|, 4
  {
    if StartsWith(s, '+') then ReadTerms(cell, sofar, s[1..]) else Some((sofar, s))
  }

  /** The value before rounding of a formula that rounds a sum to two digits. */
  function ReadFormula(cell: string -> real, s: string): Option<real> {
    if !("ROUND(" <= s) then None
    else match ReadTerms(cell, 0.0, s[6..])
      case Some((x, rest)) => if rest == ",2)" then Some(x) else None
      case None => None
  }

  // ----- the text means the tree -----

  /** Operator nodes have children: an empty sum or product has no text. */
  predicate NonEmpty(n: Node) {
    n.Branch? ==> n.kids != [] && forall k :: 0 <= k < |n.kids| ==> NonEmpty(n.kids[k])
  }

  predicate NonEmptyFrom(n: Node, k: nat)
    requires n.Branch?
  {
    k < |n.kids| && forall j :: k <= j < |n.kids| ==> NonEmpty(n.kids[j])
  }

  ghost predicate RefsOk(ref: nat -> string, cell: string -> real, values: seq<real>) {
    forall i :: 0 <= i < |values| ==> Atomic(ref(i)) && cell(ref(i)) == values[i]
  }

  predicate Stops(rest: string) {
    rest == "" || (!RefChar(rest[0]) && rest[0] != '(')
  }

  lemma {:induction false} RefThenStop(s: string, rest: string)
    requires (forall i :: 0 <= i < |s| ==> RefChar(s[i])) && Stops(rest)
    ensures RefLength(s + rest) == |s|
  {
    if s == "" {
      assert s + rest == rest;
    } else {
      AppendTail(s, rest);
      RefThenStop(s[1..], rest);
    }
  }

  lemma LeafReads(cell: string -> real, s: string, sofar: real, rest: string)
    requires Atomic(s) && Stops(rest)
    ensures ReadFactors(cell, sofar, s + rest) == MoreFactors(cell, Combine(Product, sofar, cell(s)), rest)
  {
    RefThenStop(s, rest);
    assert (s + rest)[0] == s[0] && (s + rest)[..|s|] == s && (s + rest)[|s|..] == rest;
    assert ReadFactor(cell, s + rest) == Some((cell(s), rest));
  }

  lemma NothingReads(cell: string -> real, sofar: real, rest: string)
    requires Stops(rest)
    ensures ReadFactors(cell, sofar, rest) == None
    ensures ReadTerms(cell, sofar, rest) == None
  {
    assert ReadFactor(cell, rest) == None;
  }

  /** In a product: the text of a node multiplies its value to what is read so far. */
  lemma {:induction false} NestedReads(
    ref: nat -> string, cell: string -> real, values: seq<real>, n: Node, sofar: real, rest: string)
    requires InRange(n, |values|) && RefsOk(ref, cell, values) && Stops(rest)
    ensures ReadFactors(cell, sofar, Render(ref, n, true) + rest) ==
      if NonEmpty(n) then MoreFactors(cell, Combine(Product, sofar, Eval(values, n)), rest) else None
    decreases n, 0, 1
  {
    if n.Leaf? {
      LeafReads(cell, ref(n.input), sofar, rest);
    } else if n.op == Product {
      ProductReads(ref, cell, values, n, 0, sofar, rest);
    } else {
      SumReads(ref, cell, values, n, 0, 0.0, ")" + rest);
      BracketReads(cell, RenderFrom(ref, n, 0), sofar, rest);
    }
  }

  lemma BracketReads(cell: string -> real, text: string, sofar: real, rest: string)
    ensures var inner := ReadTerms(cell, 0.0, text + (")" + rest));
      && (forall x :: inner == Some((x, ")" + rest)) ==>
            ReadFactors(cell, sofar, "(" + text + ")" + rest) == MoreFactors(cell, Combine(Product, sofar, x), rest))
      && (inner == None ==> ReadFactors(cell, sofar, "(" + text + ")" + rest) == None)
  {
    var s := "(" + text + ")" + rest;
    assert s[0] == '(' && s[1..] == text + (")" + rest) && (")" + rest)[0] == ')' && (")" + rest)[1..] == rest;
    forall x | ReadTerms(cell, 0.0, text + (")" + rest)) == Some((x, ")" + rest))
      ensures ReadFactor(cell, s) == Some((x, rest))
    {
    }
  }

  /** The children of a product, from k on. */
  lemma {:induction false} ProductReads(
    ref: nat -> string, cell: string -> real, values: seq<real>, n: Node, k: nat, sofar: real, rest: string)
    requires n.Branch? && n.op == Product && k <= |n.kids|
    requires k < |n.kids| || k == 0
    requires InRange(n, |values|) && RefsOk(ref, cell, values) && Stops(rest)
    ensures ReadFactors(cell, sofar, RenderFrom(ref, n, k) + rest) ==
      if NonEmptyFrom(n, k) then MoreFactors(cell, Combine(Product, sofar, EvalFrom(values, n, k)), rest) else None
    decreases n, 0, 0, |n.kids| - k
  {
    if k == |n.kids| {
      assert "" + rest == rest;
      NothingReads(cell, sofar, rest);
    } else if k + 1 == |n.kids| {
      NestedReads(ref, cell, values, n.kids[k], sofar, rest);
      assert EvalFrom(values, n, k + 1) == 1.0;
    } else {
      var part, x := Render(ref, n.kids[k], true), Eval(values, n.kids[k]);
      var tail := RenderFrom(ref, n, k + 1);
      TailAfterSign(part, "*", tail, rest);
      NestedReads(ref, cell, values, n.kids[k], sofar, "*" + (tail + rest));
      ProductReads(ref, cell, values, n, k + 1, Combine(Product, sofar, x), rest);
      CombineAssoc(Product, sofar, x, EvalFrom(values, n, k + 1));
    }
  }

  lemma TailAfterSign(part: string, sign: string, tail: string, rest: string)
    requires |sign| == 1
    ensures part + (sign + tail) + rest == part + (sign + (tail + rest))
    ensures (sign + (tail + rest))[0] == sign[0] && (sign + (tail + rest))[1..] == tail + rest
  {
    ConcatAssoc(part, sign + tail, rest);
    ConcatAssoc(sign, tail, rest);
  }

  /** What may follow a sum or one of its terms. */
  predicate EndsTerm(rest: string) {
    Stops(rest) && !StartsWith(rest, '*')
  }

  /** In a sum: the text of a node adds its value to what is read so far. */
  lemma {:induction false} OuterReads(
    ref: nat -> string, cell: string -> real, values: seq<real>, n: Node, sofar: real, rest: string)
    requires InRange(n, |values|) && RefsOk(ref, cell, values) && EndsTerm(rest)
    ensures ReadTerms(cell, sofar, Render(ref, n, false) + rest) ==
      if NonEmpty(n) then MoreTerms(cell, sofar + Eval(values, n), rest) else None
    decreases n, 1, 0
  {
    if n.Branch? && n.op == Sum {
      SumReads(ref, cell, values, n, 0, sofar, rest);
    } else {
      assert Render(ref, n, false) == Render(ref, n, true);
      NestedReads(ref, cell, values, n, 1.0, rest);
    }
  }

  lemma {:induction false} SumReads(
    ref: nat -> string, cell: string -> real, values: seq<real>, n: Node, k: nat, sofar: real, rest: string)
    requires n.Branch? && n.op == Sum && k <= |n.kids|
    requires k < |n.kids| || k == 0
    requires InRange(n, |values|) && RefsOk(ref, cell, values) && EndsTerm(rest)
    ensures ReadTerms(cell, sofar, RenderFrom(ref, n, k) + rest) ==
      if NonEmptyFrom(n, k) then MoreTerms(cell, sofar + EvalFrom(values, n, k), rest) else None
    decreases n, 0, 0, |n.kids| - k
  {
    if k == |n.kids| {
      assert "" + rest == rest;
      NothingReads(cell, sofar, rest);
    } else if k + 1 == |n.kids| {
      OuterReads(ref, cell, values, n.kids[k], sofar, rest);
      assert EvalFrom(values, n, k + 1) == 0.0;
    } else {
      var part, x := Render(ref, n.kids[k], false), Eval(values, n.kids[k]);
      var tail := RenderFrom(ref, n, k + 1);
      TailAfterSign(part, "+", tail, rest);
      OuterReads(ref, cell, values, n.kids[k], sofar, "+" + (tail + rest));
      SumReads(ref, cell, values, n, k + 1, sofar + x, rest);
    }
  }

  /**
   Reading the Excel text of a tree with the usual precedence gives the value of the
   tree, at any depth; it can be read at all exactly when no operator is without children.
   */
  lemma ExcelMeansEval(ref: nat -> string, cell: string -> real, values: seq<real>, root: Node)
    requires InRange(root, |values|) && RefsOk(ref, cell, values)
    ensures ReadFormula(cell, Excel(ref, root)) == if NonEmpty(root) then Some(Eval(values, root)) else None
  {
    var text := Render(ref, root, false);
    var s := Excel(ref, root);
    assert s[6..] == text + ",2)" && s[..6] == "ROUND(";
    OuterReads(ref, cell, values, root, 0.0, ",2)");
  }
}
