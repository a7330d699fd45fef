/** Building pattern trees: the operators, and the flat array a tree is kept in. */
module PegBuild {
  import opened PegTree
  import opened Seqs
  import opened PegAnalysis

  // ---------------------------------------------------------------- flat trees

  /** A node of a flat tree with what its tag uses of it.  The first sibling is the next node, the
      second, for a pair or a rule, is `ps` nodes on. */
  datatype Node =
    | NChar(c: byte) | NSet(cs: Charset) | NAny | NTrue | NFalse | NCall(rule: nat)
    | NRep | NNot | NAnd | NBehind(n: int) | NGrammar
    | NSeq(ps: nat) | NChoice(ps: nat) | NRule(ps: nat)

  /** The nodes of a tree, one after the other. */
  function Encode(p: Tree): (s: seq<Node>)
    ensures |s| >= 1
    decreases p
  {
    match p
    case TChar(c) => [NChar(c)]
    case TSet(cs) => [NSet(cs)]
    case TAny => [NAny]
    case TTrue => [NTrue]
    case TFalse => [NFalse]
    case TCall(r) => [NCall(r)]
    case TRep(q) => [NRep] + Encode(q)
    case TNot(q) => [NNot] + Encode(q)
    case TAnd(q) => [NAnd] + Encode(q)
    case TBehind(n, q) => [NBehind(n)] + Encode(q)
    case TSeq(p1, p2) => [NSeq(1 + |Encode(p1)|)] + Encode(p1) + Encode(p2)
    case TChoice(p1, p2) => [NChoice(1 + |Encode(p1)|)] + Encode(p1) + Encode(p2)
    case TGrammar(rs) => [NGrammar] + EncodeRules(p, 0)
  }

  /** The rules from number `r` on, each behind a rule node, and the node that ends them. */
  function EncodeRules(p: Tree, r: nat): (s: seq<Node>)
    requires p.TGrammar? && r <= |p.rules|
    decreases p, |p.rules| - r
  {
    if r == |p.rules| then [NTrue]
    else [NRule(1 + |Encode(p.rules[r])|)] + Encode(p.rules[r]) + EncodeRules(p, r + 1)
  }

  /** The same, to be used as a whole. */
  function Flat(p: Tree): (s: seq<Node>)
    ensures |s| >= 1
  {
    Encode(p)
  }

  // ---------------------------------------------------------------- associativity

  /** A sequence or choice whose first part is the same kind of thing. */
  predicate LeftNested(p: Tree) {
    (p.TSeq? && p.p1.TSeq?) || (p.TChoice? && p.p1.TChoice?)
  }

  /** Op (Op t11 t12) t2 turned into Op t11 (Op t12 t2). */
  function RotateOnce(p: Tree): (r: Tree)
    requires LeftNested(p)
    ensures |Flat(r)| == |Flat(p)|
  {
    RotateSize(p);
    if p.TSeq? then TSeq(p.p1.p1, TSeq(p.p1.p2, p.p2)) else TChoice(p.p1.p1, TChoice(p.p1.p2, p.p2))
  }

  lemma RotateSize(p: Tree)
    requires LeftNested(p)
    ensures var t1, t2 := p.p1, p.p2;
            |Flat(p)| == if p.TSeq? then |Flat(TSeq(t1.p1, TSeq(t1.p2, t2)))| else |Flat(TChoice(t1.p1, TChoice(t1.p2, t2)))|
  {
    var t1, t2 := p.p1, p.p2;
    PairSize(t1, t2);
    PairSize(t1.p1, t1.p2);
    PairSize(t1.p2, t2);
    PairSize(t1.p1, if p.TSeq? then TSeq(t1.p2, t2) else TChoice(t1.p2, t2));
    assert p == if p.TSeq? then TSeq(t1, t2) else TChoice(t1, t2);
    assert t1 == if p.TSeq? then TSeq(t1.p1, t1.p2) else TChoice(t1.p1, t1.p2);
    hide Flat;
  }

  lemma PairSize(p1: Tree, p2: Tree)
    ensures |Flat(TSeq(p1, p2))| == 1 + |Flat(p1)| + |Flat(p2)| == |Flat(TChoice(p1, p2))|
  {
  }

  /** Rotated until the first part is something else. */
  function Rotate(p: Tree): (r: Tree)
    ensures |Flat(r)| == |Flat(p)| && !LeftNested(r)
    ensures p.TSeq? ==> r.TSeq?
    ensures p.TChoice? ==> r.TChoice?
    decreases if p.TSeq? || p.TChoice? then |Flat(p.p1)| else 0
  {
    if LeftNested(p) then Rotate(RotateOnce(p)) else p
  }

  /** Rotating keeps the meaning, step by step of the recursion. */
  lemma {:induction false} RotateMeaning(g: Rules, p: Tree, s: seq<byte>, i: nat, n: nat)
    requires i <= |s|
    ensures Eval(g, Rotate(p), s, i, n) == Eval(g, p, s, i, n)
    decreases if p.TSeq? || p.TChoice? then |Flat(p.p1)| else 0
  {
    if LeftNested(p) {
      RotateMeaning(g, RotateOnce(p), s, i, n);
      RotateOnceMeaning(g, p, s, i, n);
    }
  }

  lemma RotateOnceMeaning(g: Rules, p: Tree, s: seq<byte>, i: nat, n: nat)
    requires i <= |s| && LeftNested(p)
    ensures Eval(g, RotateOnce(p), s, i, n) == Eval(g, p, s, i, n)
  {
    var t1 := p.p1;
    var a := Eval(g, t1.p1, s, i, n);
    if p.TSeq? {
      if a.Match? {
        assert Eval(g, TSeq(t1.p2, p.p2), s, a.pos, n)
            == (var b := Eval(g, t1.p2, s, a.pos, n); if b.Match? then Eval(g, p.p2, s, b.pos, n) else b);
      }
    } else {
      assert Eval(g, TChoice(t1.p2, p.p2), s, i, n)
          == (var b := Eval(g, t1.p2, s, i, n); if b.Fail? then Eval(g, p.p2, s, i, n) else b);
    }
  }

  function SeqOrChoice(choice: bool, ps: nat): Node { if choice then NChoice(ps) else NSeq(ps) }

  function Binary(choice: bool, p1: Tree, p2: Tree): Tree { if choice then TChoice(p1, p2) else TSeq(p1, p2) }

  lemma FlatBinary(choice: bool, p1: Tree, p2: Tree)
    ensures Flat(Binary(choice, p1, p2)) == [SeqOrChoice(choice, 1 + |Flat(p1)|)] + Flat(p1) + Flat(p2)
  {
    if choice { assert Binary(choice, p1, p2) == TChoice(p1, p2); } else { assert Binary(choice, p1, p2) == TSeq(p1, p2); }
  }

  /** Move `n` nodes down. */
  method MoveDown(a: array<Node>, to: nat, from: nat, n: nat)
    requires to <= from && from + n <= a.Length
    modifies a
    ensures a[..to] == old(a[..to]) && a[to..to + n] == old(a[from..from + n]) && a[to + n..] == old(a[to + n..])
  {
    ghost var s := a[..];
    for j := 0 to n
      invariant a[..to] == s[..to] && a[to..to + j] == s[from..from + j] && a[to + j..] == s[to + j..]
    {
      assert a[from + j] == s[from + j] by {
        assert a[to + j..][from - to] == a[from + j] && s[to + j..][from - to] == s[from + j];
      }
      a[to + j] := a[from + j];
      assert a[to..to + j + 1] == a[to..to + j] + [s[from + j]];
      assert s[from..from + j + 1] == s[from..from + j] + [s[from + j]];
      assert a[to + j + 1..] == s[to + j..][1..];
    }
  }

  /** Two operators in front of the nodes `x`. */
  function Nest(u: seq<Node>, op: Node, op1: Node, x: seq<Node>, w: seq<Node>): seq<Node> { u + [op] + [op1] + x + w }

  /** The nodes `x` between two operators. */
  function Chain(u: seq<Node>, op: Node, x: seq<Node>, op1: Node, w: seq<Node>): seq<Node> { u + [op] + x + [op1] + w }

  /** Move the nodes `x` down over the operator in front of them. */
  method MoveOver(a: array<Node>, to: nat, n: nat,
                  ghost u: seq<Node>, ghost op: Node, ghost op1: Node, ghost x: seq<Node>, ghost w: seq<Node>)
    requires a[..] == Nest(u, op, op1, x, w) && |u| + 1 == to && |x| == n
    modifies a
    ensures to + n < a.Length && a[..] == Chain(u, op, x, a[to + n], w)
  {
    ghost var s := a[..];
    MoveDown(a, to, to + 1, n);
    Moved(s, a[..], u + [op], op1, x, w);
  }

  /** The pieces of nodes whose part `x` moves down over `h`. */
  lemma Moved(s: seq<Node>, r: seq<Node>, u: seq<Node>, h: Node, x: seq<Node>, w: seq<Node>)
    requires s == u + [h] + x + w && |r| == |s|
    requires r[..|u|] == s[..|u|] && r[|u|..|u| + |x|] == s[|u| + 1..|u| + 1 + |x|] && r[|u| + |x|..] == s[|u| + |x|..]
    ensures r == u + x + [r[|u| + |x|]] + w
  {
    assert s[..|u|] == u && s[|u| + 1..|u| + 1 + |x|] == x;
    assert s[|u| + |x|..][1..] == s[|u| + |x| + 1..] == w;
    assert r[|u| + |x|..] == [r[|u| + |x|]] + r[|u| + |x|..][1..];
    assert r == r[..|u|] + r[|u|..|u| + |x|] + r[|u| + |x|..];
  }

  /** The nodes of `p` between others. */
  function Whole(u: seq<Node>, p: Tree, w: seq<Node>): seq<Node> { u + Flat(p) + w }

  /** Make the sequence or choice at slot `t` right associative, in place. */
  method CorrectAssociativity(a: array<Node>, t: nat, ghost p: Tree, ghost u: seq<Node>, ghost w: seq<Node>)
    requires a[..] == Whole(u, p, w) && |u| == t && (p.TSeq? || p.TChoice?)
    modifies a
    ensures a[..] == Whole(u, Rotate(p), w)
  {
    ghost var q := p;
    FirstNodes(u, q, w);
    while SameTag(a[..][t], a[..][t + 1])
      invariant q.TSeq? || q.TChoice?
      invariant a[..] == Whole(u, q, w) && Rotate(q) == Rotate(p)
      invariant t + 1 < a.Length && (LeftNested(q) <==> SameTag(a[..][t], a[..][t + 1]))
      decreases |Flat(q.p1)|
    {
      RotateNodes(a, t, q.TChoice?, q.p1.p1, q.p1.p2, q.p2, u, w);
      q := RotateOnce(q);
      FirstNodes(u, q, w);
    }
  }

  /** Do the nodes have the same tag? */
  predicate SameTag(x: Node, y: Node) { (x.NSeq? && y.NSeq?) || (x.NChoice? && y.NChoice?) }

  lemma FirstTag(p: Tree)
    ensures (Flat(p)[0].NSeq? <==> p.TSeq?) && (Flat(p)[0].NChoice? <==> p.TChoice?)
  {
  }

  lemma FirstNodes(u: seq<Node>, p: Tree, w: seq<Node>)
    requires p.TSeq? || p.TChoice?
    ensures var s := Whole(u, p, w); |u| + 1 < |s| && (LeftNested(p) <==> SameTag(s[|u|], s[|u| + 1]))
  {
    var s := Whole(u, p, w);
    FlatBinary(p.TChoice?, p.p1, p.p2);
    FirstTag(p.p1);
    FirstTag(p);
    hide Flat;
    assert s[|u|] == Flat(p)[0] && s[|u| + 1] == Flat(p)[1] == Flat(p.p1)[0];
  }

  /** One rotation: the nodes of t11 move down by one, and the operator takes the place behind. */
  method RotateNodes(a: array<Node>, t: nat, ghost choice: bool, ghost t11: Tree, ghost t12: Tree, ghost t2: Tree,
                     ghost u: seq<Node>, ghost w: seq<Node>)
    requires a[..] == Whole(u, Binary(choice, Binary(choice, t11, t12), t2), w) && |u| == t
    modifies a
    ensures a[..] == Whole(u, Binary(choice, t11, Binary(choice, t12, t2)), w)
  {
    NestedNodes(u, choice, t11, t12, t2, w);
    RotatedNodes(u, choice, t11, t12, t2, w);
    hide *;
    ghost var x, tail := Flat(t11), Flat(t12) + Flat(t2) + w;
    var n11size, n12size := ReadSizes(a, t, choice, u, x, |Flat(t12)|, tail);
    MoveOver(a, t + 1, n11size, u, SeqOrChoice(choice, 2 + |x| + n12size), SeqOrChoice(choice, 1 + |x|), x, tail);
    SetOperators(a, t, n11size, n12size, choice, u, SeqOrChoice(choice, 2 + |x| + n12size), x, tail);
  }

  /** The sizes of t11 and t12. */
  method ReadSizes(a: array<Node>, t: nat, ghost choice: bool, ghost u: seq<Node>, ghost x: seq<Node>, ghost n12: nat, ghost tail: seq<Node>)
    returns (n11size: nat, n12size: nat)
    requires |u| == t
    requires a[..] == Nest(u, SeqOrChoice(choice, 2 + |x| + n12), SeqOrChoice(choice, 1 + |x|), x, tail)
    ensures n11size == |x| && n12size == n12
  {
    OpsAt(u, SeqOrChoice(choice, 2 + |x| + n12), SeqOrChoice(choice, 1 + |x|), x, tail);
    assert a[t] == a[..][t] && a[t + 1] == a[..][t + 1];
    var n1size := a[t].ps - 1;
    n11size := a[t + 1].ps - 1;
    n12size := n1size - n11size - 1;
  }

  /** Give both operators their place and the sizes of their first parts. */
  method SetOperators(a: array<Node>, t: nat, n11size: nat, n12size: nat, ghost choice: bool,
                      ghost u: seq<Node>, ghost op: Node, ghost x: seq<Node>, ghost tail: seq<Node>)
    requires |u| == t && |x| == n11size && t + 1 + n11size < a.Length
    requires a[..] == Chain(u, op, x, a[t + 1 + n11size], tail)
    requires op == SeqOrChoice(choice, 2 + n11size + n12size)
    modifies a
    ensures a[..] == Chain(u, SeqOrChoice(choice, 1 + n11size), x, SeqOrChoice(choice, 1 + n12size), tail)
  {
    OpStays(u, op, x, a[t + 1 + n11size], tail, a[..]);
    assert a[t] == op;
    ghost var m := a[..];
    a[t] := a[t].(ps := n11size + 1);
    a[t + 1 + n11size] := if a[t].NSeq? then NSeq(n12size + 1) else NChoice(n12size + 1);
    assert a[..] == m[t := SeqOrChoice(choice, 1 + n11size)][t + 1 + n11size := SeqOrChoice(choice, 1 + n12size)];
  }

  lemma OpStays(u: seq<Node>, x: Node, v: seq<Node>, y: Node, w: seq<Node>, s: seq<Node>)
    requires s == Chain(u, x, v, y, w)
    ensures |s| == |u| + 2 + |v| + |w| && s[|u|] == x
  {
  }

  lemma OpsAt(u: seq<Node>, x: Node, y: Node, v: seq<Node>, w: seq<Node>)
    ensures var s := Nest(u, x, y, v, w); |s| == |u| + 2 + |v| + |w| && s[|u|] == x && s[|u| + 1] == y
  {
  }

  lemma FlatNested(choice: bool, t11: Tree, t12: Tree, t2: Tree)
    ensures var n11, n12 := |Flat(t11)|, |Flat(t12)|;
            Flat(Binary(choice, Binary(choice, t11, t12), t2))
            == [SeqOrChoice(choice, 2 + n11 + n12)]
               + ([SeqOrChoice(choice, 1 + n11)] + Flat(t11) + Flat(t12)) + Flat(t2)
  {
    FlatBinary(choice, t11, t12);
    FlatBinary(choice, Binary(choice, t11, t12), t2);
    hide Flat, Binary;
    assert 1 + |Flat(Binary(choice, t11, t12))| == 2 + |Flat(t11)| + |Flat(t12)|;
  }

  lemma FlatRotated(choice: bool, t11: Tree, t12: Tree, t2: Tree)
    ensures var n11, n12 := |Flat(t11)|, |Flat(t12)|;
            Flat(Binary(choice, t11, Binary(choice, t12, t2)))
            == [SeqOrChoice(choice, 1 + n11)] + Flat(t11)
               + ([SeqOrChoice(choice, 1 + n12)] + Flat(t12) + Flat(t2))
  {
    FlatBinary(choice, t12, t2);
    FlatBinary(choice, t11, Binary(choice, t12, t2));
    hide Flat, Binary;
  }

  lemma NestedNodes(u: seq<Node>, choice: bool, t11: Tree, t12: Tree, t2: Tree, w: seq<Node>)
    ensures var n11, n12 := |Flat(t11)|, |Flat(t12)|;
            Whole(u, Binary(choice, Binary(choice, t11, t12), t2), w)
            == Nest(u, SeqOrChoice(choice, 2 + n11 + n12), SeqOrChoice(choice, 1 + n11), Flat(t11),
                    Flat(t12) + Flat(t2) + w)
  {
    var p := Binary(choice, Binary(choice, t11, t12), t2);
    assert Whole(u, p, w) == u + Flat(p) + w;
    FlatNested(choice, t11, t12, t2);
    hide Flat, Binary, SeqOrChoice, Whole;
    var a := [SeqOrChoice(choice, 2 + |Flat(t11)| + |Flat(t12)|)];
    GroupNested(u, a, [SeqOrChoice(choice, 1 + |Flat(t11)|)], Flat(t11), Flat(t12), Flat(t2), w);
  }

  lemma RotatedNodes(u: seq<Node>, choice: bool, t11: Tree, t12: Tree, t2: Tree, w: seq<Node>)
    ensures var n11, n12 := |Flat(t11)|, |Flat(t12)|;
            Whole(u, Binary(choice, t11, Binary(choice, t12, t2)), w)
            == Chain(u, SeqOrChoice(choice, 1 + n11), Flat(t11), SeqOrChoice(choice, 1 + n12),
                     Flat(t12) + Flat(t2) + w)
  {
    var p := Binary(choice, t11, Binary(choice, t12, t2));
    assert Whole(u, p, w) == u + Flat(p) + w;
    FlatRotated(choice, t11, t12, t2);
    hide Flat, Binary, SeqOrChoice, Whole;
    var a := [SeqOrChoice(choice, 1 + |Flat(t11)|)];
    GroupRotated(u, a, [SeqOrChoice(choice, 1 + |Flat(t12)|)], Flat(t11), Flat(t12), Flat(t2), w);
  }

  lemma GroupNested(u: seq<Node>, a: seq<Node>, b: seq<Node>, x: seq<Node>, y: seq<Node>, z: seq<Node>, w: seq<Node>)
    ensures u + (a + (b + x + y) + z) + w == u + a + b + x + (y + z + w)
  {
    Assoc4(a, b, x, y);
    Assoc4(u + a + b + x, y, z, w);
    Assoc(u, a + b + x + y, z);
    Assoc4(u, a + b, x, y);
    Assoc(u, a, b);
  }

  lemma GroupRotated(u: seq<Node>, a: seq<Node>, b: seq<Node>, x: seq<Node>, y: seq<Node>, z: seq<Node>, w: seq<Node>)
    ensures u + (a + x + (b + y + z)) + w == u + a + x + b + (y + z + w)
  {
    Assoc4(a + x, b, y, z);
    Assoc4(u + a + x + b, y, z, w);
    Assoc(u, a + x + b + y, z);
    Assoc4(u, a + x, b, y);
    Assoc(u, a, x);
  }

  // ---------------------------------------------------------------- final adjustments

  /** A tree with all its sequences and choices right associative.  Embedded grammars have been
      adjusted already. */
  function Fix(p: Tree): (r: Tree)
    ensures |Flat(r)| == |Flat(p)|
    decreases |Flat(p)|
  {
    match Rotate(p)
    case TRep(q) => TRep(Fix(q))
    case TNot(q) => TNot(Fix(q))
    case TAnd(q) => TAnd(Fix(q))
    case TBehind(n, q) => TBehind(n, Fix(q))
    case TSeq(p1, p2) => TSeq(Fix(p1), Fix(p2))
    case TChoice(p1, p2) => TChoice(Fix(p1), Fix(p2))
    case _ => p
  }

  function FixRules(g: Rules): (r: Rules)
    ensures |r| == |g| && forall j :: 0 <= j < |g| ==> r[j] == Fix(g[j])
  {
    seq(|g|, j requires 0 <= j < |g| => Fix(g[j]))
  }

  /** Adjusting a grammar's rules keeps the meaning of every pattern in it. */
  lemma {:induction false} FixMeaning(g: Rules, p: Tree, s: seq<byte>, i: nat, n: nat)
    requires i <= |s|
    ensures Eval(FixRules(g), Fix(p), s, i, n) == Eval(g, p, s, i, n)
    decreases n, |Flat(p)|
  {
    RotateMeaning(g, p, s, i, n);
    FixRotated(g, p, s, i, n);
  }

  lemma UnfoldFix(p: Tree)
    ensures var q := Rotate(p);
            match q
            case TRep(t) => Fix(p) == TRep(Fix(t)) && |Flat(t)| < |Flat(p)|
            case TNot(t) => Fix(p) == TNot(Fix(t)) && |Flat(t)| < |Flat(p)|
            case TAnd(t) => Fix(p) == TAnd(Fix(t)) && |Flat(t)| < |Flat(p)|
            case TBehind(n, t) => Fix(p) == TBehind(n, Fix(t)) && |Flat(t)| < |Flat(p)|
            case TSeq(p1, p2) => Fix(p) == TSeq(Fix(p1), Fix(p2)) && |Flat(p1)| < |Flat(p)| && |Flat(p2)| < |Flat(p)|
            case TChoice(p1, p2) => Fix(p) == TChoice(Fix(p1), Fix(p2)) && |Flat(p1)| < |Flat(p)| && |Flat(p2)| < |Flat(p)|
            case _ => Fix(p) == p && q == p
    ensures Rotate(p).TRep? ==> p == Rotate(p)
  {
  }

  lemma {:induction false} FixRotated(g: Rules, p: Tree, s: seq<byte>, i: nat, n: nat)
    requires i <= |s|
    ensures Eval(FixRules(g), Fix(p), s, i, n) == Eval(g, Rotate(p), s, i, n)
    decreases n, |Flat(p)|, 0
  {
    UnfoldFix(p);
    hide Fix, Rotate, Flat;
    var q := Rotate(p);
    match q
    case TRep(t) =>
      FixMeaning(g, t, s, i, n);
      var a := Eval(g, t, s, i, n);
      if a.Match? && n > 0 { FixMeaning(g, q, s, a.pos, n - 1); }
    case TNot(t) => FixMeaning(g, t, s, i, n);
    case TAnd(t) => FixMeaning(g, t, s, i, n);
    case TBehind(b, t) => if 0 <= b <= i { FixMeaning(g, t, s, i - b, n); }
    case TSeq(p1, p2) =>
      FixMeaning(g, p1, s, i, n);
      var a := Eval(g, p1, s, i, n);
      if a.Match? { FixMeaning(g, p2, s, a.pos, n); }
    case TChoice(p1, p2) =>
      FixMeaning(g, p1, s, i, n);
      if Eval(g, p1, s, i, n).Fail? { FixMeaning(g, p2, s, i, n); }
    case TCall(r) => if n > 0 && r < |g| { FixMeaning(g, g[r], s, i, n - 1); }
    case _ =>
  }

  /** No sequence or choice, embedded grammars aside, has one of its own kind as first part. */
  predicate RightNested(p: Tree) {
    match p
    case TRep(q) => RightNested(q)
    case TNot(q) => RightNested(q)
    case TAnd(q) => RightNested(q)
    case TBehind(_, q) => RightNested(q)
    case TSeq(p1, p2) => !p1.TSeq? && RightNested(p1) && RightNested(p2)
    case TChoice(p1, p2) => !p1.TChoice? && RightNested(p1) && RightNested(p2)
    case _ => true
  }

  lemma {:induction false} FixRightNested(p: Tree)
    ensures RightNested(Fix(p))
    ensures Fix(p).TSeq? <==> p.TSeq?
    ensures Fix(p).TChoice? <==> p.TChoice?
    decreases |Flat(p)|
  {
    RotateKind(p);
    match Rotate(p)
    case TRep(q) => FixRightNested(q);
    case TNot(q) => FixRightNested(q);
    case TAnd(q) => FixRightNested(q);
    case TBehind(_, q) => FixRightNested(q);
    case TSeq(p1, p2) => FixRightNested(p1); FixRightNested(p2);
    case TChoice(p1, p2) => FixRightNested(p1); FixRightNested(p2);
    case _ =>
  }

  lemma RotateKind(p: Tree)
    ensures Rotate(p).TSeq? <==> p.TSeq?
    ensures Rotate(p).TChoice? <==> p.TChoice?
  {
  }

  /** Adjust the tree at slot `t`, in place. */
  method FinalFix(a: array<Node>, t: nat, ghost p: Tree, ghost u: seq<Node>, ghost w: seq<Node>)
    requires a[..] == Whole(u, p, w) && |u| == t
    modifies a
    ensures a[..] == Whole(u, Fix(p), w)
    decreases |Flat(p)|
  {
    FirstTag(p);
    FirstNode(u, p, w);
    UnfoldFix(p);
    hide Whole, Flat, Fix;
    if a[..][t].NSeq? || a[..][t].NChoice? {
      CorrectAssociativity(a, t, p, u, w);
      ghost var q := Rotate(p);
      FixPair(a, t, q.TChoice?, q.p1, q.p2, u, w);
    } else if a[..][t].NRep? || a[..][t].NNot? || a[..][t].NAnd? || a[..][t].NBehind? {
      OnePart(u, p, w);
      OnePart(u, Fix(p), w);
      FinalFix(a, t + 1, p.p, u + [Flat(p)[0]], w);
    }
  }

  lemma FirstNode(u: seq<Node>, p: Tree, w: seq<Node>)
    ensures var s := Whole(u, p, w); |u| < |s| && s[|u|] == Flat(p)[0]
    ensures p.TRep? || p.TNot? || p.TAnd? || p.TBehind? <==>
              Flat(p)[0].NRep? || Flat(p)[0].NNot? || Flat(p)[0].NAnd? || Flat(p)[0].NBehind?
    ensures p.TRep? || p.TNot? || p.TAnd? || p.TBehind? ==> Rotate(p) == p && Flat(Fix(p))[0] == Flat(p)[0]
  {
  }

  lemma OnePart(u: seq<Node>, p: Tree, w: seq<Node>)
    requires p.TRep? || p.TNot? || p.TAnd? || p.TBehind?
    ensures Whole(u, p, w) == Whole(u + [Flat(p)[0]], p.p, w)
  {
    assert Flat(p) == [Flat(p)[0]] + Flat(p.p);
    hide Flat;
  }

  /** Adjust both parts of a sequence or choice. */
  method FixPair(a: array<Node>, t: nat, ghost choice: bool, ghost p1: Tree, ghost p2: Tree, ghost u: seq<Node>, ghost w: seq<Node>)
    requires a[..] == Whole(u, Binary(choice, p1, p2), w) && |u| == t
    modifies a
    ensures a[..] == Whole(u, Binary(choice, Fix(p1), Fix(p2)), w)
    decreases |Flat(Binary(choice, p1, p2))|, 0
  {
    FlatBinary(choice, p1, p2);
    BothParts(u, choice, p1, p2, w);
    BothParts(u, choice, Fix(p1), p2, w);
    BothParts(u, choice, Fix(p1), Fix(p2), w);
    hide *;
    ghost var op := SeqOrChoice(choice, 1 + |Flat(p1)|);
    assert a[..][t] == op;
    var second := t + a[..][t].ps;
    FinalFix(a, t + 1, p1, u + [op], Flat(p2) + w);
    FinalFix(a, second, p2, u + [op] + Flat(Fix(p1)), w);
  }

  lemma BothParts(u: seq<Node>, choice: bool, p1: Tree, p2: Tree, w: seq<Node>)
    ensures var op := SeqOrChoice(choice, 1 + |Flat(p1)|);
            var s := Whole(u, Binary(choice, p1, p2), w);
            && s == Whole(u + [op], p1, Flat(p2) + w) == Whole(u + [op] + Flat(p1), p2, w)
            && |u| + 1 < |s| && s[|u|] == op && (op.NSeq? || op.NChoice?) && op.ps == 1 + |Flat(p1)|
  {
    FlatBinary(choice, p1, p2);
    FirstNode(u, Binary(choice, p1, p2), w);
    var op := SeqOrChoice(choice, 1 + |Flat(p1)|);
    assert (op.NSeq? || op.NChoice?) && op.ps == 1 + |Flat(p1)|;
    var p := Binary(choice, p1, p2);
    assert Whole(u, p, w) == u + Flat(p) + w;
    assert Whole(u + [op], p1, Flat(p2) + w) == u + [op] + Flat(p1) + (Flat(p2) + w);
    assert Whole(u + [op] + Flat(p1), p2, w) == u + [op] + Flat(p1) + Flat(p2) + w;
    hide Flat, Binary, SeqOrChoice, Whole;
    Assoc4(u, [op], Flat(p1), Flat(p2));
    Assoc(u + [op] + Flat(p1), Flat(p2), w);
  }

  // ---------------------------------------------------------------- the rules of a grammar

  /** The rules from number `r` on, to be used as a whole. */
  function FlatRules(p: Tree, r: nat): seq<Node>
    requires p.TGrammar? && r <= |p.rules|
  {
    EncodeRules(p, r)
  }

  lemma UnfoldFlatRules(p: Tree, r: nat)
    requires p.TGrammar? && r <= |p.rules|
    ensures r == |p.rules| ==> FlatRules(p, r) == [NTrue]
    ensures r < |p.rules| ==>
              FlatRules(p, r) == [NRule(1 + |Flat(p.rules[r])|)] + Flat(p.rules[r]) + FlatRules(p, r + 1)
  {
  }

  /** The rule chain in an array, seen from its first rule. */
  lemma ChainParts(u: seq<Node>, rule: Tree, rest: seq<Node>, w: seq<Node>, s: seq<Node>)
    requires s == u + ([NRule(1 + |Flat(rule)|)] + Flat(rule) + rest) + w
    ensures |u| < |s| && s[|u|] == NRule(1 + |Flat(rule)|)
    ensures s == Whole(u + [NRule(1 + |Flat(rule)|)], rule, rest + w)
    ensures s == u + [NRule(1 + |Flat(rule)|)] + Flat(rule) + rest + w
  {
    hide Flat;
    var a, b := [NRule(1 + |Flat(rule)|)], Flat(rule);
    Assoc4(u, a, b, rest);
    Assoc(u + a + b, rest, w);
    assert Whole(u + a, rule, rest + w) == u + a + b + (rest + w);
  }

  lemma ChainStart(p: Tree, r: nat, u: seq<Node>, w: seq<Node>)
    requires p.TGrammar? && r <= |p.rules|
    ensures var s := u + FlatRules(p, r) + w; |u| < |s| && (s[|u|].NRule? <==> r < |p.rules|)
    ensures FlatRules(p, |p.rules|) == [NTrue]
    ensures r < |p.rules| ==>
              var op, rule, rest := NRule(1 + |Flat(p.rules[r])|), p.rules[r], FlatRules(p, r + 1);
              var s := u + FlatRules(p, r) + w;
              && s[|u|] == op && s == Whole(u + [op], rule, rest + w) == u + [op] + Flat(rule) + rest + w
  {
    UnfoldFlatRules(p, r);
    UnfoldFlatRules(p, |p.rules|);
    hide FlatRules;
    if r < |p.rules| { ChainParts(u, p.rules[r], FlatRules(p, r + 1), w, u + FlatRules(p, r) + w); }
  }

  /** Adjust the rules of a new grammar, whose first is at slot `t`, in place. */
  method FixChain(a: array<Node>, t: nat, ghost p: Tree, ghost r: nat, ghost u: seq<Node>, ghost w: seq<Node>)
    requires p.TGrammar? && r <= |p.rules| && a[..] == u + FlatRules(p, r) + w && |u| == t
    modifies a
    ensures a[..] == u + FlatRules(TGrammar(FixRules(p.rules)), r) + w
    decreases |p.rules| - r
  {
    hide FlatRules, Flat, Fix, Whole;
    ghost var q := TGrammar(FixRules(p.rules));
    ChainStart(p, r, u, w);
    ChainStart(q, r, u, w);
    assert a[..][t] == a[t];
    var op := a[t];
    if op.NRule? {
      ghost var rule := p.rules[r];
      FinalFix(a, t + 1, rule, u + [op], FlatRules(p, r + 1) + w);
      ChainWhole(u + [op], Fix(rule), FlatRules(p, r + 1), w);
      FixChain(a, t + op.ps, p, r + 1, u + [op] + Flat(Fix(rule)), w);
    }
  }

  lemma ChainWhole(u: seq<Node>, rule: Tree, rest: seq<Node>, w: seq<Node>)
    ensures Whole(u, rule, rest + w) == u + Flat(rule) + rest + w
  {
    hide Flat;
    Assoc(u + Flat(rule), rest, w);
  }

  /** The grammar whose rules were adjusted means the same. */
  lemma FixedGrammarMeaning(g: Rules, rs: Rules, s: seq<byte>, i: nat, n: nat)
    requires i <= |s|
    ensures Eval(g, TGrammar(FixRules(rs)), s, i, n) == Eval(g, TGrammar(rs), s, i, n)
  {
    if rs != [] { FixMeaning(rs, rs[0], s, i, n); }
  }
}
