/** The operators patterns are built with: their shortcuts and repetitions keep what they stand for. */
module PegOperators {
  import opened PegTree
  import opened PegAnalysis

  /** p1 * p2 */
  function SeqOp(p1: Tree, p2: Tree): Tree {
    if p1.TFalse? || p2.TTrue? then p1 else if p1.TTrue? then p2 else TSeq(p1, p2)
  }

  /** p1 + p2.  A call that is still open is not taken to be unable to fail. */
  function ChoiceOp(k: nat, p1: Tree, p2: Tree): Tree {
    if IsCharPattern(p1) && IsCharPattern(p2) then TSet(ToCharset(p1) + ToCharset(p2))
    else if NoFail([], k, p1) || p2.TFalse? then p1
    else if p1.TFalse? then p2
    else TChoice(p1, p2)
  }

  /** p1 - p2 */
  function MinusOp(p1: Tree, p2: Tree): Tree {
    if IsCharPattern(p1) && IsCharPattern(p2) then TSet(ToCharset(p1) - ToCharset(p2)) else TSeq(TNot(p2), p1)
  }

  /** p^n for n >= 0: p n times, then as often as possible. */
  function AtLeast(p: Tree, n: nat): Tree { if n == 0 then TRep(p) else TSeq(p, AtLeast(p, n - 1)) }

  /** p^-n for n > 0: p as often as possible, but not more than n times. */
  function AtMost(p: Tree, n: nat): Tree
    requires n > 0
  {
    if n == 1 then TChoice(p, TTrue) else TChoice(TSeq(p, AtMost(p, n - 1)), TTrue)
  }

  /** Where matching `p` again and again from `i` gets to, and how often it matched: at most `m` times. */
  ghost function Repeated(g: Rules, p: Tree, s: seq<byte>, i: nat, m: nat, n: nat): (r: (Answer, nat))
    requires i <= |s|
    ensures r.1 <= m && (r.0.Match? ==> i <= r.0.pos <= |s|)
    decreases m
  {
    if m == 0 then (Match(i), 0)
    else
      var a := Eval(g, p, s, i, n);
      if a.Fail? then (Match(i), 0)
      else if a.Diverge? then (Diverge, 0)
      else var r := Repeated(g, p, s, a.pos, m - 1, n); (r.0, r.1 + 1)
  }

  /** A pattern that cannot fail whatever its open calls mean cannot fail in any grammar. */
  lemma {:induction false} NoFailAnywhere(g: Rules, k: nat, p: Tree)
    requires NoFail([], k, p)
    ensures NoFail(g, k, p)
    decreases p
  {
    match p
    case TAnd(q) => NoFailAnywhere(g, k, q);
    case TSeq(p1, p2) => NoFailAnywhere(g, k, p1); NoFailAnywhere(g, k, p2);
    case TChoice(p1, p2) => if NoFail([], k, p1) { NoFailAnywhere(g, k, p1); } else { NoFailAnywhere(g, k, p2); }
    case _ =>
  }

  /** The operators' shortcuts keep the meaning of the sequence, the choice and the difference. */
  lemma OperatorsMean(g: Rules, k: nat, p1: Tree, p2: Tree, s: seq<byte>, i: nat, n: nat)
    requires i <= |s|
    ensures Eval(g, SeqOp(p1, p2), s, i, n) == Eval(g, TSeq(p1, p2), s, i, n)
    ensures Eval(g, ChoiceOp(k, p1, p2), s, i, n) == Eval(g, TChoice(p1, p2), s, i, n)
    ensures Eval(g, MinusOp(p1, p2), s, i, n) == Eval(g, TSeq(TNot(p2), p1), s, i, n)
  {
    CharPatternMeaning(g, p1, s, i, n);
    CharPatternMeaning(g, p2, s, i, n);
    if NoFail([], k, p1) {
      NoFailAnywhere(g, k, p1);
      NoFailSound(g, k, p1, s, i, n);
    }
    hide CheckAux;
  }

  lemma CharPatternMeaning(g: Rules, p: Tree, s: seq<byte>, i: nat, n: nat)
    requires i <= |s|
    ensures IsCharPattern(p) ==>
              Eval(g, p, s, i, n) == if i < |s| && s[i] in ToCharset(p) then Match(i + 1) else Fail
  {
  }

  /** p^-n gets as far as matching p up to n times gets. */
  lemma {:induction false} AtMostMeans(g: Rules, p: Tree, m: nat, s: seq<byte>, i: nat, n: nat)
    requires i <= |s| && m > 0
    ensures Eval(g, AtMost(p, m), s, i, n) == Repeated(g, p, s, i, m, n).0
    decreases m
  {
    var a := Eval(g, p, s, i, n);
    if m > 1 && a.Match? {
      AtMostMeans(g, p, m - 1, s, a.pos, n);
      NeverFails(g, p, s, a.pos, m - 1, n);
      assert Eval(g, TSeq(p, AtMost(p, m - 1)), s, i, n) == Repeated(g, p, s, a.pos, m - 1, n).0;
    }
  }

  lemma {:induction false} NeverFails(g: Rules, p: Tree, s: seq<byte>, i: nat, m: nat, n: nat)
    requires i <= |s|
    ensures !Repeated(g, p, s, i, m, n).0.Fail?
    decreases m
  {
    var a := Eval(g, p, s, i, n);
    if m > 0 && a.Match? { NeverFails(g, p, s, a.pos, m - 1, n); }
  }

  /** p^n fails if p does not match n times in a row, and else goes on as p^0 from there. */
  lemma {:induction false} AtLeastMeans(g: Rules, p: Tree, m: nat, s: seq<byte>, i: nat, n: nat)
    requires i <= |s|
    ensures var r := Repeated(g, p, s, i, m, n);
            Eval(g, AtLeast(p, m), s, i, n) == (
              if r.0.Diverge? then Diverge
              else if r.1 < m || !r.0.Match? then Fail
              else Eval(g, TRep(p), s, r.0.pos, n))
    decreases m
  {
    var a := Eval(g, p, s, i, n);
    NeverFails(g, p, s, i, m, n);
    if m > 0 && a.Match? {
      AtLeastMeans(g, p, m - 1, s, a.pos, n);
    }
  }
}
