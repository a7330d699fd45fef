/** What the final adjustments of a tree leave as it was: everything the analyses, the check of grammars and the
    compiler ask of it. */
module PegFixed {
  import opened PegTree
  import opened PegAnalysis
  import opened PegGrammar
  import opened PegCaptures
  import opened PegBuild

  /** The analyses find the same of both. */
  ghost predicate SameFacts(g: Rules, k: nat, p: Tree, q: Tree) {
    && Refers(p) == Refers(q) && LeftCalls(g, k, p) == LeftCalls(g, k, q)
    && (forall pred :: CheckAux(g, k, p, pred) == CheckAux(g, k, q, pred))
    && HeadFail(g, k, p) == HeadFail(g, k, q)
    && forall count: nat, len: nat :: count <= MAXRULES ==> FixedLenX(g, p, count, len) == FixedLenX(g, q, count, len)
  }

  /** What the check of grammars and the compiler ask. */
  datatype Standing = Standing(
    wellFormed: bool, notLeftRecursive: bool, verified: bool, loops: bool, closed: bool, ordered: bool, asksEnd: bool)

  ghost function StandingOf(g: Rules, k: nat, p: Tree): Standing {
    Standing(WellFormed(g, p), NotLeftRecursive(k, p), GrammarsVerified(k, p), CheckLoops(g, k, p), BehindsClosed(p),
             Ordered(p), AsksEnd(g, k, p))
  }

  /** Both are accepted and can be compiled, or neither is. */
  ghost predicate SameStanding(g: Rules, k: nat, p: Tree, q: Tree) {
    StandingOf(g, k, p) == StandingOf(g, k, q)
  }

  ghost predicate Alike(g: Rules, k: nat, p: Tree, q: Tree) { SameFacts(g, k, p, q) && SameStanding(g, k, p, q) }

  lemma AlikeTrans(g: Rules, k: nat, p: Tree, q: Tree, r: Tree)
    requires Alike(g, k, p, q) && Alike(g, k, q, r)
    ensures Alike(g, k, p, r)
  {
    hide SameFacts, StandingOf;
    FactsTrans(g, k, p, q, r);
  }

  lemma FactsTrans(g: Rules, k: nat, p: Tree, q: Tree, r: Tree)
    requires SameFacts(g, k, p, q) && SameFacts(g, k, q, r)
    ensures SameFacts(g, k, p, r)
  {
  }

  lemma OnceAlike(g: Rules, k: nat, p: Tree)
    requires LeftNested(p)
    ensures Alike(g, k, RotateOnce(p), p)
  {
    hide SameFacts, StandingOf;
    var a, b, c := p.p1.p1, p.p1.p2, p.p2;
    if p.TSeq? {
      assert RotateOnce(p) == TSeq(a, TSeq(b, c)) && p == TSeq(TSeq(a, b), c);
      SeqOnce(g, k, a, b, c);
      StandingSeq(g, k, a, TSeq(b, c));
      StandingSeq(g, k, b, c);
      StandingSeq(g, k, TSeq(a, b), c);
      StandingSeq(g, k, a, b);
    } else {
      assert RotateOnce(p) == TChoice(a, TChoice(b, c)) && p == TChoice(TChoice(a, b), c);
      ChoiceOnce(g, k, a, b, c);
      StandingChoice(g, k, a, TChoice(b, c));
      StandingChoice(g, k, b, c);
      StandingChoice(g, k, TChoice(a, b), c);
      StandingChoice(g, k, a, b);
    }
  }

  lemma SeqOnce(g: Rules, k: nat, a: Tree, b: Tree, c: Tree)
    ensures SameFacts(g, k, TSeq(a, TSeq(b, c)), TSeq(TSeq(a, b), c))
  {
    var bc, ab := TSeq(b, c), TSeq(a, b);
    assert Refers(bc) == Refers(b) + Refers(c) && Refers(ab) == Refers(a) + Refers(b);
    forall pred ensures CheckAux(g, k, TSeq(a, bc), pred) == CheckAux(g, k, TSeq(ab, c), pred) {
      assert CheckAux(g, k, bc, pred) == (CheckAux(g, k, b, pred) && CheckAux(g, k, c, pred));
    }
    assert Nullable(g, k, ab) == (Nullable(g, k, a) && Nullable(g, k, b));
    assert NoFail(g, k, bc) == (NoFail(g, k, b) && NoFail(g, k, c));
    assert HeadFail(g, k, ab) == (NoFail(g, k, b) && HeadFail(g, k, a));
    assert LeftCalls(g, k, bc) == LeftCalls(g, k, b) + if Nullable(g, k, b) then LeftCalls(g, k, c) else {};
    forall count: nat, len: nat | count <= MAXRULES
      ensures FixedLenX(g, TSeq(a, bc), count, len) == FixedLenX(g, TSeq(ab, c), count, len) {
      var n := FixedLenX(g, a, count, len);
      if n >= 0 { assert FixedLenX(g, bc, count, n) == (var m := FixedLenX(g, b, count, n); if m < 0 then -1 else FixedLenX(g, c, count, m)); }
    }
  }

  lemma ChoiceOnce(g: Rules, k: nat, a: Tree, b: Tree, c: Tree)
    ensures SameFacts(g, k, TChoice(a, TChoice(b, c)), TChoice(TChoice(a, b), c))
  {
    var bc, ab := TChoice(b, c), TChoice(a, b);
    forall pred ensures CheckAux(g, k, TChoice(a, bc), pred) == CheckAux(g, k, TChoice(ab, c), pred) {
      assert CheckAux(g, k, bc, pred) == (CheckAux(g, k, b, pred) || CheckAux(g, k, c, pred));
    }
    assert HeadFail(g, k, bc) == (HeadFail(g, k, b) && HeadFail(g, k, c));
    forall count: nat, len: nat | count <= MAXRULES
      ensures FixedLenX(g, TChoice(a, bc), count, len) == FixedLenX(g, TChoice(ab, c), count, len) {
      var n1, n2, n3 := FixedLenX(g, a, count, len), FixedLenX(g, b, count, len), FixedLenX(g, c, count, len);
      assert FixedLenX(g, bc, count, len) == if n2 < 0 then -1 else if n2 == n3 then n2 else -1;
      assert FixedLenX(g, ab, count, len) == if n1 < 0 then -1 else if n1 == n2 then n1 else -1;
    }
  }

  lemma {:induction false} RotateAlike(g: Rules, k: nat, p: Tree)
    ensures Alike(g, k, Rotate(p), p)
    decreases if p.TSeq? || p.TChoice? then |Flat(p.p1)| else 0
  {
    hide Alike;
    if LeftNested(p) {
      RotateAlike(g, k, RotateOnce(p));
      OnceAlike(g, k, p);
      AlikeTrans(g, k, Rotate(p), RotateOnce(p), p);
    } else {
      AlikeSelf(g, k, p);
    }
  }

  lemma AlikeSelf(g: Rules, k: nat, p: Tree)
    ensures Alike(g, k, p, p)
  {
  }

  lemma FactsPair(g: Rules, k: nat, p1: Tree, p2: Tree, q1: Tree, q2: Tree, choice: bool)
    requires SameFacts(g, k, p1, q1) && SameFacts(g, k, p2, q2)
    ensures SameFacts(g, k, Binary(choice, p1, p2), Binary(choice, q1, q2))
  {
    var p, q := Binary(choice, p1, p2), Binary(choice, q1, q2);
    forall pred ensures CheckAux(g, k, p, pred) == CheckAux(g, k, q, pred) {}
    forall count: nat, len: nat | count <= MAXRULES ensures FixedLenX(g, p, count, len) == FixedLenX(g, q, count, len) {
      var n := FixedLenX(g, p1, count, len);
      assert n == FixedLenX(g, q1, count, len);
      if n >= 0 { assert FixedLenX(g, p2, count, n) == FixedLenX(g, q2, count, n); }
      assert FixedLenX(g, p2, count, len) == FixedLenX(g, q2, count, len);
    }
    assert Nullable(g, k, p1) == Nullable(g, k, q1) && NoFail(g, k, p2) == NoFail(g, k, q2);
    assert HeadFail(g, k, p) == HeadFail(g, k, q);
  }

  function Both(s: Standing, t: Standing): Standing {
    Standing(s.wellFormed && t.wellFormed, s.notLeftRecursive && t.notLeftRecursive, s.verified && t.verified, s.loops || t.loops,
             s.closed && t.closed, s.ordered && t.ordered, s.asksEnd && t.asksEnd)
  }

  lemma StandingSeq(g: Rules, k: nat, p1: Tree, p2: Tree)
    ensures StandingOf(g, k, TSeq(p1, p2)) == Both(StandingOf(g, k, p1), StandingOf(g, k, p2))
  {
  }

  lemma StandingChoice(g: Rules, k: nat, p1: Tree, p2: Tree)
    ensures StandingOf(g, k, TChoice(p1, p2)) == Both(StandingOf(g, k, p1), StandingOf(g, k, p2))
  {
  }

  lemma StandingPair(g: Rules, k: nat, p1: Tree, p2: Tree, q1: Tree, q2: Tree, choice: bool)
    requires SameStanding(g, k, p1, q1) && SameStanding(g, k, p2, q2)
    ensures SameStanding(g, k, Binary(choice, p1, p2), Binary(choice, q1, q2))
  {
    hide StandingOf;
    StandingSeq(g, k, p1, p2);
    StandingSeq(g, k, q1, q2);
    StandingChoice(g, k, p1, p2);
    StandingChoice(g, k, q1, q2);
  }

  /** A pattern with one part, of the kind of `p`. */
  function Over(p: Tree, q: Tree): Tree
    requires p.TRep? || p.TNot? || p.TAnd? || p.TBehind?
  {
    match p
    case TRep(_) => TRep(q)
    case TNot(_) => TNot(q)
    case TAnd(_) => TAnd(q)
    case TBehind(n, _) => TBehind(n, q)
  }

  lemma FactsOver(g: Rules, k: nat, p: Tree, q: Tree)
    requires (p.TRep? || p.TNot? || p.TAnd? || p.TBehind?) && SameFacts(g, k, q, p.p)
    ensures SameFacts(g, k, Over(p, q), p)
  {
    forall pred ensures CheckAux(g, k, p, pred) == CheckAux(g, k, Over(p, q), pred) {}
  }

  lemma StandingRep(g: Rules, k: nat, q: Tree)
    ensures var s := StandingOf(g, k, q); StandingOf(g, k, TRep(q)) == s.(loops := Nullable(g, k, q) || s.loops)
  {
  }

  lemma StandingNot(g: Rules, k: nat, q: Tree)
    ensures var s := StandingOf(g, k, q); StandingOf(g, k, TNot(q)) == s.(asksEnd := HeadFail(g, k, q) || s.asksEnd)
  {
  }

  lemma StandingAnd(g: Rules, k: nat, q: Tree)
    ensures var s := StandingOf(g, k, q);
            var asks := 0 <= FixedLen(g, q) <= MAXBEHIND ==> s.ordered && forall c :: c in Refers(q) ==> OrderedFrom(g, c);
            StandingOf(g, k, TAnd(q)) == s.(asksEnd := asks && s.asksEnd)
  {
  }

  lemma StandingBehind(g: Rules, k: nat, q: Tree, n: int)
    ensures var s := StandingOf(g, k, q);
            var fits := 0 <= n <= MAXBEHIND && n == FixedLen(g, q);
            StandingOf(g, k, TBehind(n, q)) == s.(wellFormed := fits && s.wellFormed, closed := Refers(q) == {} && s.closed)
  {
  }

  lemma StandingOver(g: Rules, k: nat, p: Tree, q: Tree)
    requires (p.TRep? || p.TNot? || p.TAnd? || p.TBehind?) && SameStanding(g, k, q, p.p)
    requires Nullable(g, k, q) == Nullable(g, k, p.p) && HeadFail(g, k, q) == HeadFail(g, k, p.p)
    requires FixedLen(g, q) == FixedLen(g, p.p) && Refers(q) == Refers(p.p)
    ensures SameStanding(g, k, Over(p, q), p)
  {
    hide StandingOf;
    match p
    case TRep(t) => StandingRep(g, k, t); StandingRep(g, k, q);
    case TNot(t) => StandingNot(g, k, t); StandingNot(g, k, q);
    case TAnd(t) => StandingAnd(g, k, t); StandingAnd(g, k, q);
    case TBehind(n, t) => StandingBehind(g, k, t, n); StandingBehind(g, k, q, n);
  }

  lemma AlikeOver(g: Rules, k: nat, p: Tree, q: Tree)
    requires (p.TRep? || p.TNot? || p.TAnd? || p.TBehind?) && Alike(g, k, q, p.p)
    ensures Alike(g, k, Over(p, q), p)
  {
    hide SameStanding;
    FactsOver(g, k, p, q);
    StandingOver(g, k, p, q);
  }

  lemma AlikePair(g: Rules, k: nat, p1: Tree, p2: Tree, q1: Tree, q2: Tree, choice: bool)
    requires Alike(g, k, p1, q1) && Alike(g, k, p2, q2)
    ensures Alike(g, k, Binary(choice, p1, p2), Binary(choice, q1, q2))
  {
    hide SameFacts, SameStanding, Binary;
    FactsPair(g, k, p1, p2, q1, q2, choice);
    StandingPair(g, k, p1, p2, q1, q2, choice);
  }

  /** Adjusting a tree changes nothing that is asked of it. */
  lemma {:induction false} FixAlike(g: Rules, k: nat, p: Tree)
    ensures Alike(g, k, Fix(p), p)
    decreases |Flat(p)|
  {
    RotateAlike(g, k, p);
    UnfoldFix(p);
    hide Alike, Fix, Rotate, Flat;
    var q := Rotate(p);
    match q {
      case TRep(t) => FixAlike(g, k, t); AlikeOver(g, k, q, Fix(t));
      case TNot(t) => FixAlike(g, k, t); AlikeOver(g, k, q, Fix(t));
      case TAnd(t) => FixAlike(g, k, t); AlikeOver(g, k, q, Fix(t));
      case TBehind(n, t) => FixAlike(g, k, t); AlikeOver(g, k, q, Fix(t));
      case TSeq(p1, p2) => FixAlike(g, k, p1); FixAlike(g, k, p2); AlikePair(g, k, Fix(p1), Fix(p2), p1, p2, false);
      case TChoice(p1, p2) => FixAlike(g, k, p1); FixAlike(g, k, p2); AlikePair(g, k, Fix(p1), Fix(p2), p1, p2, true);
      case _ => AlikeSelf(g, k, p);
    }
    AlikeTrans(g, k, Fix(p), q, p);
  }

  /** So what is matched is the pattern in every respect: it may be compiled and matched as that, and means the same. */
  lemma FixKeeps(k: nat, p: Tree)
    ensures WellFormed([], Fix(p)) <==> WellFormed([], p)
    ensures NotLeftRecursive(k, Fix(p)) <==> NotLeftRecursive(k, p)
    ensures GrammarsVerified(k, Fix(p)) <==> GrammarsVerified(k, p)
    ensures CheckLoops([], k, Fix(p)) <==> CheckLoops([], k, p)
    ensures BehindsClosed(Fix(p)) <==> BehindsClosed(p)
    ensures AsksEnd([], k, Fix(p)) <==> AsksEnd([], k, p)
    ensures forall s: seq<byte>, i: nat, n: nat | i <= |s| :: Eval([], Fix(p), s, i, n) == Eval([], p, s, i, n)
  {
    FixAlike([], k, p);
    forall s: seq<byte>, i: nat, n: nat | i <= |s| ensures Eval([], Fix(p), s, i, n) == Eval([], p, s, i, n) {
      FixMeaning([], p, s, i, n);
      assert FixRules([]) == [];
    }
  }
}
