/** Pattern trees of the LPeg library and what it means for one to match.

    The original stores a tree as a flat array of nodes whose second sibling is a relative
    offset, and a call node points at the rule it calls.  Here a tree is a value and a call
    carries the number of its rule in the innermost enclosing grammar.  Captures are not
    modelled. */
module PegTree {

  newtype byte = x: int | 0 <= x < 256

  type Charset = set<byte>

  const FULLSET: Charset := set b: byte | true

  datatype Tree =
    | TChar(c: byte)
    | TSet(cs: Charset)
    | TAny
    | TTrue
    | TFalse
    | TRep(p: Tree)
    | TSeq(p1: Tree, p2: Tree)
    | TChoice(p1: Tree, p2: Tree)
    | TNot(p: Tree)
    | TAnd(p: Tree)
    | TBehind(n: int, p: Tree)
    | TCall(rule: nat)
    | TGrammar(rules: seq<Tree>)

  /** The rules a call can refer to: those of the innermost enclosing grammar. */
  type Rules = seq<Tree>

  /** What matching a pattern at a position of a subject gives.  `Diverge` means that the
      search was cut off before it had an answer. */
  datatype Answer = Fail | Match(pos: nat) | Diverge

  /** The character set of a one-character pattern. */
  predicate IsCharPattern(p: Tree) {
    p.TChar? || p.TSet? || p.TAny?
  }

  function ToCharset(p: Tree): Charset
    requires IsCharPattern(p)
  {
    match p
    case TChar(c) => {c}
    case TSet(cs) => cs
    case TAny => FULLSET
  }

  /** The meaning of a pattern as a parsing expression: the answer of matching `p` against
      subject `s` from position `i`, entering rules and repeating loops at most `n` deep. */
  ghost function Eval(g: Rules, p: Tree, s: seq<byte>, i: nat, n: nat): (a: Answer)
    requires i <= |s|
    ensures a.Match? ==> i <= a.pos <= |s|
    decreases n, p
  {
    match p
    case TChar(_) => if i < |s| && s[i] in ToCharset(p) then Match(i + 1) else Fail
    case TSet(_) => if i < |s| && s[i] in ToCharset(p) then Match(i + 1) else Fail
    case TAny => if i < |s| then Match(i + 1) else Fail
    case TTrue => Match(i)
    case TFalse => Fail
    case TRep(q) =>
      var a := Eval(g, q, s, i, n);
      if a.Fail? then Match(i)
      else if a.Diverge? || n == 0 then Diverge
      else Eval(g, p, s, a.pos, n - 1)
    case TSeq(p1, p2) =>
      var a := Eval(g, p1, s, i, n);
      if a.Match? then Eval(g, p2, s, a.pos, n) else a
    case TChoice(p1, p2) =>
      var a := Eval(g, p1, s, i, n);
      if a.Fail? then Eval(g, p2, s, i, n) else a
    case TNot(q) =>
      var a := Eval(g, q, s, i, n);
      if a.Fail? then Match(i) else if a.Match? then Fail else Diverge
    case TAnd(q) =>
      var a := Eval(g, q, s, i, n);
      if a.Match? then Match(i) else a
    case TBehind(m, q) =>
      if m < 0 || i < m then Fail
      else
        var a := Eval(g, q, s, i - m, n);
        if a.Match? then Match(i) else a
    case TCall(r) =>
      if n == 0 || r >= |g| then Diverge else Eval(g, g[r], s, i, n - 1)
    case TGrammar(rs) =>
      if rs == [] then Diverge else Eval(rs, rs[0], s, i, n)
  }

  /** More depth never changes an answer that was found. */
  lemma {:induction false} EvalMonotone(g: Rules, p: Tree, s: seq<byte>, i: nat, n: nat, m: nat)
    requires i <= |s| && n <= m
    requires !Eval(g, p, s, i, n).Diverge?
    ensures Eval(g, p, s, i, m) == Eval(g, p, s, i, n)
    decreases n, p
  {
    match p
    case TRep(q) =>
      EvalMonotone(g, q, s, i, n, m);
      var a := Eval(g, q, s, i, n);
      if a.Match? { EvalMonotone(g, p, s, a.pos, n - 1, m - 1); }
    case TSeq(p1, p2) =>
      EvalMonotone(g, p1, s, i, n, m);
      var a := Eval(g, p1, s, i, n);
      if a.Match? { EvalMonotone(g, p2, s, a.pos, n, m); }
    case TChoice(p1, p2) =>
      EvalMonotone(g, p1, s, i, n, m);
      if Eval(g, p1, s, i, n).Fail? { EvalMonotone(g, p2, s, i, n, m); }
    case TNot(q) => EvalMonotone(g, q, s, i, n, m);
    case TAnd(q) => EvalMonotone(g, q, s, i, n, m);
    case TBehind(b, q) => if 0 <= b <= i { EvalMonotone(g, q, s, i - b, n, m); }
    case TCall(r) => EvalMonotone(g, g[r], s, i, n - 1, m - 1);
    case TGrammar(rs) => EvalMonotone(rs, rs[0], s, i, n, m);
    case _ =>
  }
}
