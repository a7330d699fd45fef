/** The question whether a pattern has captures, which the compiler asks about the body of a predicate
    before it leaves out the backtrack entry.  Patterns have none here, and the answer is always no; but
    the question follows every call into its rule and, as the rules of a grammar are chained, into all
    rules behind that one, and it does not remember where it has been. */
module PegCaptures {
  import opened PegTree
  import opened PegAnalysis
  import opened PegGrammar

  /** Asked about `p`, the question ends after following at most `n` calls in a row. */
  predicate Visited(g: Rules, p: Tree, n: nat)
    decreases n, p
  {
    match p
    case TRep(q) => Visited(g, q, n)
    case TNot(q) => Visited(g, q, n)
    case TAnd(q) => Visited(g, q, n)
    case TBehind(_, q) => Visited(g, q, n)
    case TSeq(p1, p2) => Visited(g, p1, n) && Visited(g, p2, n)
    case TChoice(p1, p2) => Visited(g, p1, n) && Visited(g, p2, n)
    case TCall(r) => n > 0 && r < |g| && forall j :: r <= j < |g| ==> Visited(g, g[j], n - 1)
    case TGrammar(rs) => forall j :: 0 <= j < |rs| ==> Visited(rs, rs[j], n)
    case _ => true
  }

  /** The calls in the rules from number `m` on name later rules than the one they are in. */
  predicate CallsForward(rs: Rules, m: nat) {
    forall j, c :: m <= j < |rs| && c in Refers(rs[j]) ==> c > j
  }

  /** In the grammars inside `p` every call names a later rule. */
  predicate Ordered(p: Tree) {
    match p
    case TRep(q) => Ordered(q)
    case TNot(q) => Ordered(q)
    case TAnd(q) => Ordered(q)
    case TBehind(_, q) => Ordered(q)
    case TSeq(p1, p2) => Ordered(p1) && Ordered(p2)
    case TChoice(p1, p2) => Ordered(p1) && Ordered(p2)
    case TGrammar(rs) => CallsForward(rs, 0) && forall j :: 0 <= j < |rs| ==> Ordered(rs[j])
    case _ => true
  }

  /** The rules from number `m` on. */
  predicate OrderedFrom(rs: Rules, m: nat) {
    CallsForward(rs, m) && forall j :: m <= j < |rs| ==> Ordered(rs[j])
  }

  /** In every rule that the question comes to, each call names a later rule. */
  predicate Askable(g: Rules, p: Tree) {
    Ordered(p) && forall c :: c in Refers(p) ==> OrderedFrom(g, c)
  }

  ghost predicate RulesWellFormed(g: Rules) {
    forall r :: 0 <= r < |g| ==> WellFormed(g, g[r])
  }

  // ---------------------------------------------------------------- when it ends

  /** All that asking about `p` relies on: rules from number `lo` on are visited, at nesting depth `e`. */
  ghost predicate Asking(g: Rules, p: Tree, e: nat, lo: nat) {
    && WellFormed(g, p) && Within(p, e) && Ordered(p) && lo <= |g| && (forall c :: c in Refers(p) ==> c >= lo)
    && OrderedFrom(g, lo) && forall j :: lo <= j < |g| ==> WellFormed(g, g[j]) && Within(g[j], e)
  }

  lemma AskingParts(g: Rules, p: Tree, e: nat, lo: nat)
    requires Asking(g, p, e, lo)
    ensures lo <= |g|
    ensures p.TRep? || p.TNot? || p.TAnd? || p.TBehind? ==> Asking(g, p.p, e, lo)
    ensures p.TSeq? || p.TChoice? ==> Asking(g, p.p1, e, lo) && Asking(g, p.p2, e, lo)
    ensures p.TCall? ==> lo <= p.rule < |g| && forall j :: p.rule <= j < |g| ==> Asking(g, g[j], e, j + 1)
    ensures p.TGrammar? ==> e > 0 && |p.rules| <= MAXRULES && forall j :: 0 <= j < |p.rules| ==> Asking(p.rules, p.rules[j], e - 1, j + 1)
  {
    if p.TBehind? { WithinMore(p.p, e - 1, e); }
    if p.TCall? { assert p.rule in Refers(p); }
  }

  /** Where calls name later rules, following them comes to an end: rules get later, or grammars nest less deep. */
  lemma {:induction false} OrderedVisited(g: Rules, p: Tree, e: nat, lo: nat, n: nat)
    requires Asking(g, p, e, lo) && n >= |g| - lo + MAXRULES * e
    ensures Visited(g, p, n)
    decreases e, |g| - lo, p
  {
    hide Asking;
    AskingParts(g, p, e, lo);
    match p
    case TRep(q) => OrderedVisited(g, q, e, lo, n);
    case TNot(q) => OrderedVisited(g, q, e, lo, n);
    case TAnd(q) => OrderedVisited(g, q, e, lo, n);
    case TBehind(_, q) => OrderedVisited(g, q, e, lo, n);
    case TSeq(p1, p2) => OrderedVisited(g, p1, e, lo, n); OrderedVisited(g, p2, e, lo, n);
    case TChoice(p1, p2) => OrderedVisited(g, p1, e, lo, n); OrderedVisited(g, p2, e, lo, n);
    case TCall(r) => forall j | r <= j < |g| ensures Visited(g, g[j], n - 1) { OrderedVisited(g, g[j], e, j + 1, n - 1); }
    case TGrammar(rs) => forall j | 0 <= j < |rs| ensures Visited(rs, rs[j], n) { OrderedVisited(rs, rs[j], e - 1, j + 1, n); }
    case _ =>
  }

  /** The question comes to the rule of every call, and to all behind it. */
  lemma {:induction false} RefersVisited(g: Rules, p: Tree, n: nat, c: nat)
    requires Visited(g, p, n) && c in Refers(p)
    ensures n > 0 && c < |g| && forall j :: c <= j < |g| ==> Visited(g, g[j], n - 1)
    decreases p
  {
    match p
    case TRep(q) => RefersVisited(g, q, n, c);
    case TNot(q) => RefersVisited(g, q, n, c);
    case TAnd(q) => RefersVisited(g, q, n, c);
    case TBehind(_, q) => RefersVisited(g, q, n, c);
    case TSeq(p1, p2) => RefersVisited(g, if c in Refers(p1) then p1 else p2, n, c);
    case TChoice(p1, p2) => RefersVisited(g, if c in Refers(p1) then p1 else p2, n, c);
    case _ =>
  }

  /** Once it ends, it has not come back: a rule that is visited calls later rules only. */
  lemma {:induction false} VisitedForward(g: Rules, j: nat, n: nat, c: nat)
    requires j < |g| && Visited(g, g[j], n) && c in Refers(g[j])
    ensures c > j
    decreases n
  {
    RefersVisited(g, g[j], n, c);
    if c <= j { VisitedForward(g, j, n - 1, c); }
  }

  lemma {:induction false} VisitedOrdered(g: Rules, p: Tree, n: nat)
    requires Visited(g, p, n)
    ensures Ordered(p)
    decreases p
  {
    match p
    case TRep(q) => VisitedOrdered(g, q, n);
    case TNot(q) => VisitedOrdered(g, q, n);
    case TAnd(q) => VisitedOrdered(g, q, n);
    case TBehind(_, q) => VisitedOrdered(g, q, n);
    case TSeq(p1, p2) => VisitedOrdered(g, p1, n); VisitedOrdered(g, p2, n);
    case TChoice(p1, p2) => VisitedOrdered(g, p1, n); VisitedOrdered(g, p2, n);
    case TGrammar(rs) =>
      forall j | 0 <= j < |rs| ensures Ordered(rs[j]) { VisitedOrdered(rs, rs[j], n); }
      forall j, c | 0 <= j < |rs| && c in Refers(rs[j]) ensures c > j { VisitedForward(rs, j, n, c); }
    case _ =>
  }

  lemma VisitedAskable(g: Rules, p: Tree, n: nat)
    requires Visited(g, p, n)
    ensures Askable(g, p)
  {
    VisitedOrdered(g, p, n);
    forall c | c in Refers(p) ensures OrderedFrom(g, c) {
      RefersVisited(g, p, n, c);
      forall j | c <= j < |g| ensures Ordered(g[j]) { VisitedOrdered(g, g[j], n - 1); }
      forall j, d | c <= j < |g| && d in Refers(g[j]) ensures d > j { VisitedForward(g, j, n - 1, d); }
    }
  }

  /** Every rule nests only so deep. */
  lemma RulesNesting(g: Rules) returns (e: nat)
    ensures forall r :: 0 <= r < |g| ==> Within(g[r], e)
  {
    e := NestingRules(TGrammar(g), |g|);
  }

  /** What asking needs, from what can be seen in the tree. */
  lemma AskableAsking(g: Rules, p: Tree) returns (e: nat, lo: nat)
    requires WellFormed(g, p) && RulesWellFormed(g) && Askable(g, p)
    ensures Asking(g, p, e, lo)
  {
    var e1 := Nesting(p);
    var e2 := RulesNesting(g);
    e := Max(e1, e2);
    WithinMore(p, e1, e);
    forall r | 0 <= r < |g| ensures Within(g[r], e) { WithinMore(g[r], e2, e); }
    lo := |g|;
    if Refers(p) != {} {
      lo := Least(Refers(p));
      RefersInside(g, p, lo);
    }
  }

  lemma {:induction false} Least(s: set<nat>) returns (m: nat)
    requires s != {}
    ensures m in s && forall c :: c in s ==> m <= c
    decreases s
  {
    m :| m in s;
    var others := s - {m};
    assert forall c :: c in s ==> c == m || c in others;
    if others != {} {
      var l := Least(others);
      if l < m { m := l; }
    }
  }

  /** Asked about `p` the question ends. */
  ghost predicate AskEnds(g: Rules, p: Tree) {
    exists n: nat :: Visited(g, p, n)
  }

  /** It does if and only if in every rule that it comes to each call names a later rule. */
  lemma AskEndsExact(g: Rules, p: Tree)
    requires WellFormed(g, p) && RulesWellFormed(g)
    ensures AskEnds(g, p) <==> Askable(g, p)
  {
    if AskEnds(g, p) {
      var n: nat :| Visited(g, p, n);
      VisitedAskable(g, p, n);
    }
    if Askable(g, p) {
      var e, lo := AskableAsking(g, p);
      var n := |g| - lo + MAXRULES * e;
      OrderedVisited(g, p, e, lo, n);
      assert Visited(g, p, n);
    }
  }

  // ---------------------------------------------------------------- the question itself

  /** Asked about `p`, with at most `n` calls in a row, the question comes to a pattern that is one of those looked for. */
  ghost predicate ComesTo(g: Rules, p: Tree, n: nat, wanted: Tree -> bool)
    decreases n, p
  {
    wanted(p) ||
    match p
    case TRep(q) => ComesTo(g, q, n, wanted)
    case TNot(q) => ComesTo(g, q, n, wanted)
    case TAnd(q) => ComesTo(g, q, n, wanted)
    case TBehind(_, q) => ComesTo(g, q, n, wanted)
    case TSeq(p1, p2) => ComesTo(g, p1, n, wanted) || ComesTo(g, p2, n, wanted)
    case TChoice(p1, p2) => ComesTo(g, p1, n, wanted) || ComesTo(g, p2, n, wanted)
    case TCall(r) => n > 0 && r < |g| && exists j :: r <= j < |g| && ComesTo(g, g[j], n - 1, wanted)
    case TGrammar(rs) => exists j :: 0 <= j < |rs| && ComesTo(rs, rs[j], n, wanted)
    case _ => false
  }

  ghost predicate Finds(g: Rules, p: Tree, wanted: Tree -> bool) {
    exists n: nat :: ComesTo(g, p, n, wanted)
  }

  ghost predicate FindsFrom(rs: Rules, m: nat, wanted: Tree -> bool) {
    exists j :: m <= j < |rs| && Finds(rs, rs[j], wanted)
  }

  lemma FindsParts(g: Rules, p: Tree, wanted: Tree -> bool)
    ensures wanted(p) ==> Finds(g, p, wanted)
    ensures !wanted(p) && (p.TRep? || p.TNot? || p.TAnd? || p.TBehind?) ==> (Finds(g, p, wanted) <==> Finds(g, p.p, wanted))
    ensures !wanted(p) && (p.TSeq? || p.TChoice?) ==> (Finds(g, p, wanted) <==> Finds(g, p.p1, wanted) || Finds(g, p.p2, wanted))
    ensures !wanted(p) && p.TCall? && p.rule < |g| ==> (Finds(g, p, wanted) <==> FindsFrom(g, p.rule, wanted))
    ensures !wanted(p) && p.TGrammar? ==> (Finds(g, p, wanted) <==> FindsFrom(p.rules, 0, wanted))
    ensures !wanted(p) && (IsCharPattern(p) || p.TTrue? || p.TFalse?) ==> !Finds(g, p, wanted)
  {
    if wanted(p) {
      assert ComesTo(g, p, 0, wanted);
    } else if p.TCall? && p.rule < |g| {
      CallFinds(g, p.rule, wanted);
    } else if p.TGrammar? {
      GrammarFinds(g, p, wanted);
    } else {
      forall n: nat
        ensures p.TRep? || p.TNot? || p.TAnd? || p.TBehind? ==> (ComesTo(g, p, n, wanted) <==> ComesTo(g, p.p, n, wanted))
        ensures p.TSeq? || p.TChoice? ==> (ComesTo(g, p, n, wanted) <==> ComesTo(g, p.p1, n, wanted) || ComesTo(g, p.p2, n, wanted)) {
      }
    }
  }

  lemma CallFinds(g: Rules, r: nat, wanted: Tree -> bool)
    requires !wanted(TCall(r)) && r < |g|
    ensures Finds(g, TCall(r), wanted) <==> FindsFrom(g, r, wanted)
  {
    if Finds(g, TCall(r), wanted) {
      var n: nat :| ComesTo(g, TCall(r), n, wanted);
      var j :| r <= j < |g| && ComesTo(g, g[j], n - 1, wanted);
      assert Finds(g, g[j], wanted);
    }
    if FindsFrom(g, r, wanted) {
      var j :| r <= j < |g| && Finds(g, g[j], wanted);
      var n: nat :| ComesTo(g, g[j], n, wanted);
      assert ComesTo(g, TCall(r), n + 1, wanted);
    }
  }

  lemma GrammarFinds(g: Rules, p: Tree, wanted: Tree -> bool)
    requires p.TGrammar? && !wanted(p)
    ensures Finds(g, p, wanted) <==> FindsFrom(p.rules, 0, wanted)
  {
    if Finds(g, p, wanted) {
      var n: nat :| ComesTo(g, p, n, wanted);
      var j :| 0 <= j < |p.rules| && ComesTo(p.rules, p.rules[j], n, wanted);
      assert Finds(p.rules, p.rules[j], wanted);
    }
    if FindsFrom(p.rules, 0, wanted) {
      var j :| 0 <= j < |p.rules| && Finds(p.rules, p.rules[j], wanted);
      var n: nat :| ComesTo(p.rules, p.rules[j], n, wanted);
      assert ComesTo(g, p, n, wanted);
    }
  }

  /** Has `p` captures?  Which patterns are ones is for `isCapture` to say. */
  method HasCaptures(g: Rules, p: Tree, isCapture: Tree -> bool, ghost e: nat, ghost lo: nat) returns (has: bool)
    requires Asking(g, p, e, lo)
    ensures has <==> Finds(g, p, isCapture)
    decreases e, |g| - lo, 1, p
  {
    hide Asking, Finds, FindsFrom;
    AskingParts(g, p, e, lo);
    FindsParts(g, p, isCapture);
    if isCapture(p) { return true; }
    match p {
      case TRep(q) => has := HasCaptures(g, q, isCapture, e, lo);
      case TNot(q) => has := HasCaptures(g, q, isCapture, e, lo);
      case TAnd(q) => has := HasCaptures(g, q, isCapture, e, lo);
      case TBehind(_, q) => has := HasCaptures(g, q, isCapture, e, lo);
      case TSeq(p1, p2) =>
        has := HasCaptures(g, p1, isCapture, e, lo);
        if !has { has := HasCaptures(g, p2, isCapture, e, lo); }
      case TChoice(p1, p2) =>
        has := HasCaptures(g, p1, isCapture, e, lo);
        if !has { has := HasCaptures(g, p2, isCapture, e, lo); }
      case TCall(r) => has := RulesHaveCaptures(g, r, isCapture, e);
      case TGrammar(rs) => has := RulesHaveCaptures(rs, 0, isCapture, e - 1);
      case _ => has := false;
    }
  }

  /** The same about rule `r` and those chained behind it. */
  method RulesHaveCaptures(g: Rules, r: nat, isCapture: Tree -> bool, ghost e: nat) returns (has: bool)
    requires r <= |g| && forall j :: r <= j < |g| ==> Asking(g, g[j], e, j + 1)
    ensures has <==> FindsFrom(g, r, isCapture)
    decreases e, |g| - r, 0
  {
    hide Asking, Finds;
    has := false;
    if r < |g| {
      has := HasCaptures(g, g[r], isCapture, e, r + 1);
      if !has { has := RulesHaveCaptures(g, r + 1, isCapture, e); }
    }
  }

  // ---------------------------------------------------------------- a whole pattern

  /** At every predicate of fixed length in the code of `p` the question ends. */
  predicate AsksEnd(g: Rules, k: nat, p: Tree)
    decreases p
  {
    match p
    case TRep(q) => AsksEnd(g, k, q)
    case TNot(q) => HeadFail(g, k, q) || AsksEnd(g, k, q)
    case TAnd(q) => (0 <= FixedLen(g, q) <= MAXBEHIND ==> Askable(g, q)) && AsksEnd(g, k, q)
    case TBehind(_, q) => AsksEnd(g, k, q)
    case TSeq(p1, p2) => AsksEnd(g, k, p1) && AsksEnd(g, k, p2)
    case TChoice(p1, p2) => AsksEnd(g, k, p1) && AsksEnd(g, k, p2)
    case TGrammar(rs) => forall r :: 0 <= r < |rs| ==> AsksEnd(rs, k, rs[r])
    case _ => true
  }

  /** What the compiler asks of a pattern in grammar `g`. */
  ghost predicate Codable(g: Rules, k: nat, p: Tree) {
    WellFormed(g, p) && NotLeftRecursive(k, p) && RulesWellFormed(g) && AsksEnd(g, k, p)
  }

  lemma CodableParts(g: Rules, k: nat, p: Tree)
    requires Codable(g, k, p)
    ensures p.TSeq? || p.TChoice? ==> Codable(g, k, p.p1) && Codable(g, k, p.p2)
    ensures p.TRep? || p.TBehind? || p.TAnd? ==> Codable(g, k, p.p)
    ensures p.TNot? ==> HeadFail(g, k, p.p) || Codable(g, k, p.p)
    ensures p.TAnd? && 0 <= FixedLen(g, p.p) <= MAXBEHIND ==> Askable(g, p.p)
    ensures p.TGrammar? ==> Codable([], k, p) && forall r :: 0 <= r < |p.rules| ==> Codable(p.rules, k, p.rules[r])
  {
  }

  lemma CodableWellFormed(g: Rules, k: nat, p: Tree)
    requires Codable(g, k, p)
    ensures WellFormed(g, p) && RulesWellFormed(g)
  {
  }

  /** Nothing is found where nothing is looked for. */
  lemma {:induction false} NothingFound(g: Rules, p: Tree, n: nat, wanted: Tree -> bool)
    requires forall q :: !wanted(q)
    ensures !ComesTo(g, p, n, wanted)
    decreases n, p
  {
    match p
    case TRep(q) => NothingFound(g, q, n, wanted);
    case TNot(q) => NothingFound(g, q, n, wanted);
    case TAnd(q) => NothingFound(g, q, n, wanted);
    case TBehind(_, q) => NothingFound(g, q, n, wanted);
    case TSeq(p1, p2) => NothingFound(g, p1, n, wanted); NothingFound(g, p2, n, wanted);
    case TChoice(p1, p2) => NothingFound(g, p1, n, wanted); NothingFound(g, p2, n, wanted);
    case TCall(r) => forall j | n > 0 && r <= j < |g| ensures !ComesTo(g, g[j], n - 1, wanted) { NothingFound(g, g[j], n - 1, wanted); }
    case TGrammar(rs) => forall j | 0 <= j < |rs| ensures !ComesTo(rs, rs[j], n, wanted) { NothingFound(rs, rs[j], n, wanted); }
    case _ =>
  }

  /** Ask about the body of a predicate; none of the patterns here is a capture. */
  method AskCaptures(g: Rules, p: Tree) returns (has: bool)
    requires WellFormed(g, p) && RulesWellFormed(g) && Askable(g, p)
    ensures !has
  {
    ghost var e, lo := AskableAsking(g, p);
    var none: Tree -> bool := _ => false;
    has := HasCaptures(g, p, none, e, lo);
    forall n: nat ensures !ComesTo(g, p, n, none) { NothingFound(g, p, n, none); }
  }
}
