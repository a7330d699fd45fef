/** Checking grammars: which grammars are accepted, and why matching an accepted one always ends. */
module PegGrammar {
  import opened PegTree
  import opened PegAnalysis

  /** What checking a rule gives: an error after too many calls in a row, or whether the pattern can
      be passed without consuming. */
  datatype Verdict = TooDeep | Passes(empty: bool)

  /** Follow the left calls of `p`, of which `npassed` are on the way already.  `nb` is an
      accumulator: something before has been passed without consuming.  At an embedded grammar the
      original forgets it; with `keep` it is kept, as it is everywhere else. */
  function VerifyRule(keep: bool, g: Rules, k: nat, p: Tree, npassed: nat, nb: bool): Verdict
    requires npassed <= MAXRULES
    decreases MAXRULES - npassed, p
  {
    match p
    case TTrue => Passes(true)
    case TBehind(_, _) => Passes(true)
    case TNot(q) => VerifyRule(keep, g, k, q, npassed, true)
    case TAnd(q) => VerifyRule(keep, g, k, q, npassed, true)
    case TRep(q) => VerifyRule(keep, g, k, q, npassed, true)
    case TCall(r) => if npassed >= MAXRULES || r >= |g| then TooDeep else VerifyRule(keep, g, k, g[r], npassed + 1, nb)
    case TSeq(p1, p2) =>
      var v := VerifyRule(keep, g, k, p1, npassed, false);
      if v.TooDeep? then v else if !v.empty then Passes(nb) else VerifyRule(keep, g, k, p2, npassed, nb)
    case TChoice(p1, p2) =>
      var v := VerifyRule(keep, g, k, p1, npassed, nb);
      if v.TooDeep? then v else VerifyRule(keep, g, k, p2, npassed, v.empty)
    case TGrammar(_) => Passes((keep && nb) || Nullable(g, k, p))
    case _ => Passes(nb)
  }

  /** Does `p` have a loop whose body may match without consuming? */
  predicate CheckLoops(g: Rules, k: nat, p: Tree) {
    match p
    case TRep(q) => Nullable(g, k, q) || CheckLoops(g, k, q)
    case TNot(q) => CheckLoops(g, k, q)
    case TAnd(q) => CheckLoops(g, k, q)
    case TBehind(_, q) => CheckLoops(g, k, q)
    case TSeq(p1, p2) => CheckLoops(g, k, p1) || CheckLoops(g, k, p2)
    case TChoice(p1, p2) => CheckLoops(g, k, p1) || CheckLoops(g, k, p2)
    case _ => false
  }

  /** The rules `p` calls, of the grammar it stands in. */
  function Refers(p: Tree): set<nat> {
    match p
    case TRep(q) => Refers(q)
    case TNot(q) => Refers(q)
    case TAnd(q) => Refers(q)
    case TBehind(_, q) => Refers(q)
    case TSeq(p1, p2) => Refers(p1) + Refers(p2)
    case TChoice(p1, p2) => Refers(p1) + Refers(p2)
    case TCall(r) => {r}
    case _ => {}
  }

  /** A rule has a key if it is the initial one or some rule calls it. */
  predicate Used(rs: Rules, r: nat) {
    r == 0 || exists q :: 0 <= q < |rs| && r in Refers(rs[q])
  }

  /** No used rule runs into too many calls. */
  predicate VerifyLeftCalls(keep: bool, k: nat, rs: Rules) {
    forall r :: 0 <= r < |rs| && Used(rs, r) ==> VerifyRule(keep, rs, k, rs[r], 0, false).Passes?
  }

  /** A grammar is accepted if no used rule runs into too many calls or has an empty loop. */
  predicate VerifyGrammar(k: nat, rs: Rules) {
    && VerifyLeftCalls(false, k, rs)
    && forall r :: 0 <= r < |rs| && Used(rs, r) ==> !CheckLoops(rs, k, rs[r])
  }

  /** All grammars in `p` have been accepted when they were built. */
  predicate GrammarsVerified(k: nat, p: Tree) {
    match p
    case TRep(q) => GrammarsVerified(k, q)
    case TNot(q) => GrammarsVerified(k, q)
    case TAnd(q) => GrammarsVerified(k, q)
    case TBehind(_, q) => GrammarsVerified(k, q)
    case TSeq(p1, p2) => GrammarsVerified(k, p1) && GrammarsVerified(k, p2)
    case TChoice(p1, p2) => GrammarsVerified(k, p1) && GrammarsVerified(k, p2)
    case TGrammar(rs) => VerifyGrammar(k, rs) && forall r :: 0 <= r < |rs| ==> GrammarsVerified(k, rs[r])
    case _ => true
  }

  // ---------------------------------------------------------------- what the check relies on

  /** `p` nests grammars and look-behinds at most `e` deep. */
  predicate Within(p: Tree, e: nat)
    decreases p
  {
    match p
    case TRep(q) => Within(q, e)
    case TNot(q) => Within(q, e)
    case TAnd(q) => Within(q, e)
    case TBehind(_, q) => e > 0 && Within(q, e - 1)
    case TSeq(p1, p2) => Within(p1, e) && Within(p2, e)
    case TChoice(p1, p2) => Within(p1, e) && Within(p2, e)
    case TGrammar(rs) => e > 0 && forall r :: 0 <= r < |rs| ==> Within(rs[r], e - 1)
    case _ => true
  }

  /** The bodies of look-behinds call no rules.  The check takes this for granted. */
  predicate BehindsClosed(p: Tree) {
    match p
    case TRep(q) => BehindsClosed(q)
    case TNot(q) => BehindsClosed(q)
    case TAnd(q) => BehindsClosed(q)
    case TBehind(_, q) => Refers(q) == {} && BehindsClosed(q)
    case TSeq(p1, p2) => BehindsClosed(p1) && BehindsClosed(p2)
    case TChoice(p1, p2) => BehindsClosed(p1) && BehindsClosed(p2)
    case TGrammar(rs) => forall r :: 0 <= r < |rs| ==> BehindsClosed(rs[r])
    case _ => true
  }

  /** All grammars in `p` pass the check that keeps `nb`. */
  predicate GrammarsKept(k: nat, p: Tree) {
    match p
    case TRep(q) => GrammarsKept(k, q)
    case TNot(q) => GrammarsKept(k, q)
    case TAnd(q) => GrammarsKept(k, q)
    case TBehind(_, q) => GrammarsKept(k, q)
    case TSeq(p1, p2) => GrammarsKept(k, p1) && GrammarsKept(k, p2)
    case TChoice(p1, p2) => GrammarsKept(k, p1) && GrammarsKept(k, p2)
    case TGrammar(rs) => VerifyLeftCalls(true, k, rs) && forall r :: 0 <= r < |rs| ==> GrammarsKept(k, rs[r])
    case _ => true
  }

  /** What the check is exact for, at nesting depth `e`. */
  ghost predicate Sane(k: nat, p: Tree, e: nat) {
    Within(p, e) && GrammarsKept(k, p) && BehindsClosed(p)
  }

  ghost predicate SaneRules(g: Rules, k: nat, e: nat) {
    forall r :: 0 <= r < |g| ==> Sane(k, g[r], e) && WellFormed(g, g[r])
  }

  // ---------------------------------------------------------------- verdicts and nullability

  /** Following fewer calls finds more patterns nullable. */
  lemma {:induction false} NullableLess(g: Rules, k1: nat, k2: nat, p: Tree)
    requires k1 <= k2 && Nullable(g, k2, p)
    ensures Nullable(g, k1, p)
    decreases k2, p
  {
    match p
    case TSeq(p1, p2) => NullableLess(g, k1, k2, p1); NullableLess(g, k1, k2, p2);
    case TChoice(p1, p2) =>
      if Nullable(g, k2, p1) { NullableLess(g, k1, k2, p1); } else { NullableLess(g, k1, k2, p2); }
    case TGrammar(rs) => if rs != [] { NullableLess(rs, k1, k2, rs[0]); }
    case TCall(r) => if k1 > 0 && r < |g| { NullableLess(g, k1 - 1, k2 - 1, g[r]); }
    case _ =>
  }

  /** The verdict says of a pattern whether it is nullable, however many more calls are followed. */
  lemma {:induction false} VerdictNullable(g: Rules, k: nat, m: nat, p: Tree, np: nat, nb: bool, e: nat)
    requires np <= MAXRULES && SaneRules(g, k, e) && Sane(k, p, e) && WellFormed(g, p)
    requires VerifyRule(true, g, k, p, np, nb).Passes?
    requires MAXRULES - np + MAXRULES * e <= k && MAXRULES - np + MAXRULES * e <= m
    ensures VerifyRule(true, g, k, p, np, nb).empty <==> nb || Nullable(g, m, p)
    decreases e, 1 + MAXRULES - np, p
  {
    match p
    case TNot(q) => VerdictNullable(g, k, m, q, np, true, e);
    case TAnd(q) => VerdictNullable(g, k, m, q, np, true, e);
    case TRep(q) => VerdictNullable(g, k, m, q, np, true, e);
    case TCall(r) => VerdictNullable(g, k, m - 1, g[r], np + 1, nb, e);
    case TSeq(p1, p2) =>
      VerdictNullable(g, k, m, p1, np, false, e);
      VerdictNullable(g, k, k, p1, np, false, e);
      if Nullable(g, k, p1) { VerdictNullable(g, k, m, p2, np, nb, e); }
    case TChoice(p1, p2) =>
      VerdictNullable(g, k, m, p1, np, nb, e);
      VerdictNullable(g, k, k, p1, np, nb, e);
      VerdictNullable(g, k, m, p2, np, nb || Nullable(g, k, p1), e);
    case TGrammar(rs) => GrammarStable(k, m, p, e);
    case _ =>
  }

  /** Whether an accepted grammar is nullable does not depend on how many calls are followed, if
      they are enough. */
  lemma {:induction false} GrammarStable(k: nat, m: nat, p: Tree, e: nat)
    requires p.TGrammar? && Sane(k, p, e) && WellFormed([], p) && MAXRULES * e <= k && MAXRULES * e <= m
    ensures Nullable([], m, p) <==> Nullable([], k, p)
    decreases e, 0
  {
    var rs := p.rules;
    assert Sane(k, rs[0], e - 1) && WellFormed(rs, rs[0]) && Used(rs, 0);
    VerdictNullable(rs, k, m, rs[0], 0, false, e - 1);
    VerdictNullable(rs, k, k, rs[0], 0, false, e - 1);
  }

  // ---------------------------------------------------------------- accepted grammars are ranked

  /** Whether a verdict is an error does not depend on the accumulator. */
  lemma {:induction false} VerdictAnyway(g: Rules, k: nat, p: Tree, np: nat, nb1: bool, nb2: bool)
    requires np <= MAXRULES && VerifyRule(true, g, k, p, np, nb1).Passes?
    ensures VerifyRule(true, g, k, p, np, nb2).Passes?
    decreases MAXRULES - np, p
  {
    match p
    case TSeq(p1, p2) => if VerifyRule(true, g, k, p1, np, false).empty { VerdictAnyway(g, k, p2, np, nb1, nb2); }
    case TChoice(p1, p2) =>
      VerdictAnyway(g, k, p1, np, nb1, nb2);
      VerdictAnyway(g, k, p2, np, VerifyRule(true, g, k, p1, np, nb1).empty, VerifyRule(true, g, k, p1, np, nb2).empty);
    case TCall(r) => VerdictAnyway(g, k, g[r], np + 1, nb1, nb2);
    case _ =>
  }

  lemma {:induction false} LeftCallsRefer(g: Rules, k: nat, p: Tree)
    ensures LeftCalls(g, k, p) <= Refers(p)
    decreases p
  {
    match p
    case TNot(q) => LeftCallsRefer(g, k, q);
    case TAnd(q) => LeftCallsRefer(g, k, q);
    case TRep(q) => LeftCallsRefer(g, k, q);
    case TBehind(_, q) => LeftCallsRefer(g, k, q);
    case TSeq(p1, p2) => LeftCallsRefer(g, k, p1); LeftCallsRefer(g, k, p2);
    case TChoice(p1, p2) => LeftCallsRefer(g, k, p1); LeftCallsRefer(g, k, p2);
    case _ =>
  }

  /** A rule that `p` may call first passes with one more call on the way. */
  lemma {:induction false} LeftCallPasses(g: Rules, k: nat, p: Tree, np: nat, nb: bool, e: nat, c: nat)
    requires np <= MAXRULES && SaneRules(g, k, e) && Sane(k, p, e) && WellFormed(g, p)
    requires VerifyRule(true, g, k, p, np, nb).Passes?
    requires MAXRULES + MAXRULES * e <= k && c in LeftCalls(g, k, p)
    ensures c < |g| && np < MAXRULES && VerifyRule(true, g, k, g[c], np + 1, false).Passes?
    decreases MAXRULES - np, p
  {
    match p
    case TNot(q) => LeftCallPasses(g, k, q, np, true, e, c);
    case TAnd(q) => LeftCallPasses(g, k, q, np, true, e, c);
    case TRep(q) => LeftCallPasses(g, k, q, np, true, e, c);
    case TBehind(_, q) => LeftCallsRefer(g, k, q); assert false;
    case TCall(r) => VerdictAnyway(g, k, g[r], np + 1, nb, false);
    case TSeq(p1, p2) =>
      if c in LeftCalls(g, k, p1) {
        LeftCallPasses(g, k, p1, np, false, e, c);
      } else {
        VerdictNullable(g, k, k, p1, np, false, e);
        LeftCallPasses(g, k, p2, np, nb, e, c);
      }
    case TChoice(p1, p2) =>
      VerdictNullable(g, k, k, p1, np, nb, e);
      if c in LeftCalls(g, k, p1) {
        LeftCallPasses(g, k, p1, np, nb, e, c);
      } else {
        LeftCallPasses(g, k, p2, np, nb || Nullable(g, k, p1), e, c);
      }
    case _ =>
  }

  /** Rule `r` passes when `d` more calls may follow. */
  predicate PassesIn(g: Rules, k: nat, r: nat, d: nat) {
    r < |g| && d <= MAXRULES && VerifyRule(true, g, k, g[r], MAXRULES - d, false).Passes?
  }

  /** How deep the left calls of a rule go: the least depth its check can do with, up to `d`. */
  function Depth(g: Rules, k: nat, r: nat, d: nat): (h: nat)
    ensures h <= d && (h < d || PassesIn(g, k, r, d) ==> PassesIn(g, k, r, h))
    ensures forall x: nat :: x < h ==> !PassesIn(g, k, r, x)
  {
    if d == 0 then 0
    else
      var h := Depth(g, k, r, d - 1);
      if PassesIn(g, k, r, h) then h else d
  }

  /** The rank of a rule; unused rules, which nothing calls, come last. */
  function Rank(g: Rules, k: nat, r: nat): nat {
    if Used(g, r) then Depth(g, k, r, MAXRULES) else MAXRULES + 1
  }

  /** In an accepted grammar every rule ranks above the rules it may call first. */
  lemma CallRanksLower(g: Rules, k: nat, e: nat, r: nat, c: nat)
    requires SaneRules(g, k, e) && MAXRULES + MAXRULES * e <= k
    requires forall q :: 0 <= q < |g| && Used(g, q) ==> PassesIn(g, k, q, MAXRULES)
    requires r < |g| && c in LeftCalls(g, k, g[r])
    ensures c < |g| && Rank(g, k, c) < Rank(g, k, r)
  {
    hide VerifyRule, LeftCalls, Refers, Sane, WellFormed, Depth;
    LeftCallsRefer(g, k, g[r]);
    assert Used(g, c);
    RefersInside(g, g[r], c);
    var d := Depth(g, k, c, MAXRULES);
    if Used(g, r) {
      var h := Depth(g, k, r, MAXRULES);
      assert PassesIn(g, k, r, h);
      LeftCallPasses(g, k, g[r], MAXRULES - h, false, e, c);
      assert PassesIn(g, k, c, h - 1);
    }
  }

  lemma {:induction false} RefersInside(g: Rules, p: Tree, c: nat)
    requires WellFormed(g, p) && c in Refers(p)
    ensures c < |g|
    decreases p
  {
    match p
    case TNot(q) => RefersInside(g, q, c);
    case TAnd(q) => RefersInside(g, q, c);
    case TRep(q) => RefersInside(g, q, c);
    case TBehind(_, q) => RefersInside(g, q, c);
    case TSeq(p1, p2) => if c in Refers(p1) { RefersInside(g, p1, c); } else { RefersInside(g, p2, c); }
    case TChoice(p1, p2) => if c in Refers(p1) { RefersInside(g, p1, c); } else { RefersInside(g, p2, c); }
    case _ =>
  }

  /** No rule of a grammar that passes the check with `nb` kept is left recursive. */
  lemma VerifiedRanked(k: nat, p: Tree, e: nat)
    requires p.TGrammar? && Sane(k, p, e) && WellFormed([], p) && MAXRULES * e <= k
    ensures exists rank :: Ranking(p.rules, k, rank)
  {
    var g := p.rules;
    assert SaneRules(g, k, e - 1);
    var rank := seq(|g|, r requires 0 <= r => Rank(g, k, r));
    forall r | 0 <= r < |g| ensures RanksAbove(g, k, rank, r) {
      forall c | c in LeftCalls(g, k, g[r]) ensures c < |g| && rank[c] < rank[r] {
        CallRanksLower(g, k, e - 1, r, c);
      }
    }
    assert Ranking(g, k, rank);
  }

  /** No grammar in a pattern of which all pass is left recursive. */
  lemma {:induction false} KeptNotLeftRecursive(g: Rules, k: nat, p: Tree, e: nat)
    requires Sane(k, p, e) && WellFormed(g, p) && MAXRULES * e <= k
    ensures NotLeftRecursive(k, p)
    decreases p
  {
    match p
    case TNot(q) => KeptNotLeftRecursive(g, k, q, e);
    case TAnd(q) => KeptNotLeftRecursive(g, k, q, e);
    case TRep(q) => KeptNotLeftRecursive(g, k, q, e);
    case TBehind(_, q) => KeptNotLeftRecursive(g, k, q, e - 1);
    case TSeq(p1, p2) => KeptNotLeftRecursive(g, k, p1, e); KeptNotLeftRecursive(g, k, p2, e);
    case TChoice(p1, p2) => KeptNotLeftRecursive(g, k, p1, e); KeptNotLeftRecursive(g, k, p2, e);
    case TGrammar(rs) =>
      VerifiedRanked(k, p, e);
      forall r | 0 <= r < |rs| ensures NotLeftRecursive(k, rs[r]) {
        KeptNotLeftRecursive(rs, k, rs[r], e - 1);
      }
    case _ =>
  }

  // ---------------------------------------------------------------- ranked grammars are accepted

  /** A verdict never calls a pattern nullable that is not. */
  lemma {:induction false} VerdictModest(keep: bool, g: Rules, k: nat, m: nat, p: Tree, np: nat, nb: bool)
    requires np <= MAXRULES && m <= k && VerifyRule(keep, g, k, p, np, nb) == Passes(true)
    ensures nb || Nullable(g, m, p)
    decreases MAXRULES - np, p
  {
    match p
    case TCall(r) => if m > 0 { VerdictModest(keep, g, k, m - 1, g[r], np + 1, nb); }
    case TSeq(p1, p2) =>
      if VerifyRule(keep, g, k, p1, np, false).empty {
        VerdictModest(keep, g, k, m, p1, np, false);
        VerdictModest(keep, g, k, m, p2, np, nb);
      }
    case TChoice(p1, p2) =>
      var v := VerifyRule(keep, g, k, p1, np, nb);
      if v.empty { VerdictModest(keep, g, k, m, p1, np, nb); }
      if !nb && !Nullable(g, m, p1) { VerdictModest(keep, g, k, m, p2, np, v.empty); }
    case TGrammar(_) => if !nb { NullableLess(g, m, k, p); }
    case _ =>
  }

  /** Enough calls are left for all that `p` may call first. */
  ghost predicate Room(rank: seq<nat>, calls: set<nat>, np: nat) {
    forall c :: c in calls ==> c < |rank| && np + 1 + rank[c] <= MAXRULES
  }

  lemma RoomPart(rank: seq<nat>, calls: set<nat>, np: nat, part: set<nat>)
    requires Room(rank, calls, np) && part <= calls
    ensures Room(rank, part, np)
  {
  }

  /** Where the left calls are ranked, the check does not run into too many of them. */
  lemma {:induction false} RankedPasses(keep: bool, g: Rules, k: nat, rank: seq<nat>, p: Tree, np: nat, nb: bool)
    requires np <= MAXRULES && Ranking(g, k, rank) && Room(rank, LeftCalls(g, k, p), np)
    ensures VerifyRule(keep, g, k, p, np, nb).Passes?
    decreases MAXRULES - np, p
  {
    var calls := LeftCalls(g, k, p);
    match p
    case TNot(q) => RankedPasses(keep, g, k, rank, q, np, true);
    case TAnd(q) => RankedPasses(keep, g, k, rank, q, np, true);
    case TRep(q) => RankedPasses(keep, g, k, rank, q, np, true);
    case TCall(r) =>
      assert r in calls && RanksAbove(g, k, rank, r);
      RankedPasses(keep, g, k, rank, g[r], np + 1, nb);
    case TSeq(p1, p2) =>
      RoomPart(rank, calls, np, LeftCalls(g, k, p1));
      RankedPasses(keep, g, k, rank, p1, np, false);
      if VerifyRule(keep, g, k, p1, np, false).empty {
        VerdictModest(keep, g, k, k, p1, np, false);
        RoomPart(rank, calls, np, LeftCalls(g, k, p2));
        RankedPasses(keep, g, k, rank, p2, np, nb);
      }
    case TChoice(p1, p2) =>
      RoomPart(rank, calls, np, LeftCalls(g, k, p1));
      RoomPart(rank, calls, np, LeftCalls(g, k, p2));
      RankedPasses(keep, g, k, rank, p1, np, nb);
      RankedPasses(keep, g, k, rank, p2, np, VerifyRule(keep, g, k, p1, np, nb).empty);
    case _ =>
  }

  /** The rules of lower rank. */
  ghost function Lower(rank: seq<nat>, r: nat): set<nat>
    requires r < |rank|
  {
    set c: nat | c < |rank| && rank[c] < rank[r]
  }

  lemma {:induction false} CountBelow(s: set<nat>, n: nat)
    requires forall c :: c in s ==> c < n
    ensures |s| <= n
  {
    if n > 0 {
      var t := s - {n - 1};
      CountBelow(t, n - 1);
      if n - 1 in s { assert s == t + {n - 1}; } else { assert s == t; }
    }
  }

  lemma CountLess(s: set<nat>, t: set<nat>, x: nat)
    requires s <= t && x in t && x !in s
    ensures |s| < |t|
  {
    assert |t - s| + |s| == |t| by { assert (t - s) + s == t; }
    assert x in t - s;
  }

  /** Ranks can be numbers below the number of rules. */
  lemma Compressed(g: Rules, k: nat, rank: seq<nat>) returns (low: seq<nat>)
    requires Ranking(g, k, rank)
    ensures Ranking(g, k, low) && forall r :: 0 <= r < |low| ==> low[r] < |g|
  {
    low := seq(|g|, r requires 0 <= r < |g| => |Lower(rank, r)|);
    forall r | 0 <= r < |g| ensures low[r] < |g| && RanksAbove(g, k, low, r) {
      var everyone := set c: nat | c < |rank| && rank[c] <= rank[r];
      CountBelow(everyone, |g|);
      CountLess(Lower(rank, r), everyone, r);
      assert RanksAbove(g, k, rank, r);
      forall c | c in LeftCalls(g, k, g[r]) ensures c < |g| && low[c] < low[r] {
        CountLess(Lower(rank, c), Lower(rank, r), c);
      }
    }
  }

  /** A grammar that is not left recursive, and has no more rules than allowed, passes. */
  lemma RankedVerified(keep: bool, k: nat, g: Rules)
    requires |g| <= MAXRULES && exists rank :: Ranking(g, k, rank)
    ensures VerifyLeftCalls(keep, k, g)
  {
    var rank :| Ranking(g, k, rank);
    var low := Compressed(g, k, rank);
    forall r | 0 <= r < |g| && Used(g, r) ensures VerifyRule(keep, g, k, g[r], 0, false).Passes? {
      assert RanksAbove(g, k, low, r);
      RankedPasses(keep, g, k, low, g[r], 0, false);
    }
  }

  /** A pattern without left recursion passes, and its grammars are accepted whether `nb` is kept or not. */
  lemma {:induction false} NotLeftRecursiveKept(g: Rules, k: nat, p: Tree)
    requires WellFormed(g, p) && NotLeftRecursive(k, p)
    ensures GrammarsKept(k, p)
    decreases p
  {
    match p
    case TNot(q) => NotLeftRecursiveKept(g, k, q);
    case TAnd(q) => NotLeftRecursiveKept(g, k, q);
    case TRep(q) => NotLeftRecursiveKept(g, k, q);
    case TBehind(_, q) => NotLeftRecursiveKept(g, k, q);
    case TSeq(p1, p2) => NotLeftRecursiveKept(g, k, p1); NotLeftRecursiveKept(g, k, p2);
    case TChoice(p1, p2) => NotLeftRecursiveKept(g, k, p1); NotLeftRecursiveKept(g, k, p2);
    case TGrammar(rs) =>
      RankedVerified(true, k, rs);
      forall r | 0 <= r < |rs| ensures GrammarsKept(k, rs[r]) { NotLeftRecursiveKept(rs, k, rs[r]); }
    case _ =>
  }

  /** The check is exact when it keeps `nb`: the patterns whose grammars all pass it are those without left
      recursion.  The original, which forgets `nb`, accepts them too, and others. */
  lemma LeftCallsExact(k: nat, p: Tree, e: nat)
    requires WellFormed([], p) && BehindsClosed(p) && Within(p, e) && MAXRULES * e <= k
    ensures GrammarsKept(k, p) <==> NotLeftRecursive(k, p)
    ensures NotLeftRecursive(k, p) && p.TGrammar? ==> VerifyLeftCalls(false, k, p.rules)
  {
    if GrammarsKept(k, p) { KeptNotLeftRecursive([], k, p, e); }
    if NotLeftRecursive(k, p) {
      NotLeftRecursiveKept([], k, p);
      if p.TGrammar? { RankedVerified(false, k, p.rules); }
    }
  }

  // ---------------------------------------------------------------- the check as it runs

  /** The outcome of checking a rule, with the rule that an error names. */
  datatype Report = Fine(empty: bool) | LeftRecursive(rule: nat) | TooManyCalls

  /** Each rule on the way may call the next one first. */
  ghost predicate Chain(g: Rules, k: nat, way: seq<nat>) {
    && (forall j :: 0 <= j < |way| ==> way[j] < |g|)
    && forall j :: 0 < j < |way| ==> way[j] in LeftCalls(g, k, g[way[j - 1]])
  }

  /** Rule `r` may come to call itself first. */
  ghost predicate ReachesItself(g: Rules, k: nat, r: nat) {
    exists way :: Chain(g, k, way) && |way| > 1 && way[0] == r == way[|way| - 1]
  }

  /** Find the rule an error names: one that occurs twice among those passed. */
  method VerifyError(passed: array<nat>, npassed: nat) returns (report: Report)
    requires npassed <= passed.Length
    ensures match report
            case LeftRecursive(r) => exists i, j :: 0 <= j < i < npassed && passed[j] == passed[i] == r
            case TooManyCalls => forall i, j :: 0 <= j < i < npassed ==> passed[j] != passed[i]
            case Fine(_) => false
  {
    var i := npassed - 1;
    while i >= 0
      invariant i < npassed && forall x, y :: 0 <= y < x < npassed && x > i ==> passed[y] != passed[x]
    {
      var j := i - 1;
      while j >= 0
        invariant j < i && forall y :: j < y < i ==> passed[y] != passed[i]
      {
        if passed[i] == passed[j] {
          return LeftRecursive(passed[i]);
        }
        j := j - 1;
      }
      i := i - 1;
    }
    return TooManyCalls;
  }

  /** Check a rule, keeping the rules on the way in `passed`.  An error names a rule that is left
      recursive, or none. */
  method VerifyRuleIn(g: Rules, k: nat, p: Tree, passed: array<nat>, npassed: nat, nb: bool)
    returns (report: Report)
    requires npassed <= passed.Length == MAXRULES && WellFormed(g, p) && (forall r :: 0 <= r < |g| ==> WellFormed(g, g[r]))
    requires Chain(g, k, passed[..npassed])
    requires npassed > 0 ==> LeftCalls(g, k, p) <= LeftCalls(g, k, g[passed[npassed - 1]])
    modifies passed
    ensures passed[..npassed] == old(passed[..npassed])
    ensures match VerifyRule(false, g, k, p, npassed, nb)
            case Passes(empty) => report == Fine(empty)
            case TooDeep => report.TooManyCalls? || (report.LeftRecursive? && ReachesItself(g, k, report.rule))
    decreases MAXRULES - npassed, p, 1
  {
    ghost var way := passed[..npassed];
    match p {
      case TTrue => report := Fine(true);
      case TBehind(_, _) => report := Fine(true);
      case TNot(q) => report := VerifyRuleIn(g, k, q, passed, npassed, true);
      case TAnd(q) => report := VerifyRuleIn(g, k, q, passed, npassed, true);
      case TRep(q) => report := VerifyRuleIn(g, k, q, passed, npassed, true);
      case TCall(r) => report := VerifyCallIn(g, k, r, passed, npassed, nb);
      case TSeq(p1, p2) =>
        report := VerifyRuleIn(g, k, p1, passed, npassed, false);
        if report == Fine(false) {
          report := Fine(nb);
        } else if report.Fine? {
          VerdictModest(false, g, k, k, p1, npassed, false);
          SamePrefix(way, passed[..npassed]);
          report := VerifyRuleIn(g, k, p2, passed, npassed, nb);
        }
      case TChoice(p1, p2) =>
        report := VerifyRuleIn(g, k, p1, passed, npassed, nb);
        if report.Fine? {
          SamePrefix(way, passed[..npassed]);
          report := VerifyRuleIn(g, k, p2, passed, npassed, report.empty);
        }
      case TGrammar(_) => report := Fine(Nullable(g, k, p));
      case _ => report := Fine(nb);
    }
  }

  /** A call: one rule more on the way, if there is room. */
  method VerifyCallIn(g: Rules, k: nat, r: nat, passed: array<nat>, npassed: nat, nb: bool)
    returns (report: Report)
    requires npassed <= passed.Length == MAXRULES && r < |g| && (forall q :: 0 <= q < |g| ==> WellFormed(g, g[q]))
    requires Chain(g, k, passed[..npassed])
    requires npassed > 0 ==> r in LeftCalls(g, k, g[passed[npassed - 1]])
    modifies passed
    ensures passed[..npassed] == old(passed[..npassed])
    ensures match VerifyRule(false, g, k, TCall(r), npassed, nb)
            case Passes(empty) => report == Fine(empty)
            case TooDeep => report.TooManyCalls? || (report.LeftRecursive? && ReachesItself(g, k, report.rule))
    decreases MAXRULES - npassed, TCall(r), 0
  {
    ghost var way := passed[..npassed];
    if npassed >= MAXRULES {
      report := VerifyError(passed, npassed);
      if report.LeftRecursive? { RepeatedRule(g, k, passed[..npassed], report.rule); }
    } else {
      passed[npassed] := r;
      ChainNext(g, k, way, r, passed[..npassed + 1]);
      report := VerifyRuleIn(g, k, g[r], passed, npassed + 1, nb);
      assert passed[..npassed] == passed[..npassed + 1][..npassed];
    }
  }

  lemma SamePrefix(a: seq<nat>, b: seq<nat>)
    requires a == b
    ensures |a| == |b| && forall j :: 0 <= j < |a| ==> a[j] == b[j]
  {
  }

  lemma ChainNext(g: Rules, k: nat, way: seq<nat>, r: nat, longer: seq<nat>)
    requires Chain(g, k, way) && r < |g| && longer == way + [r]
    requires way != [] ==> r in LeftCalls(g, k, g[way[|way| - 1]])
    ensures Chain(g, k, longer)
  {
  }

  lemma RepeatedRule(g: Rules, k: nat, way: seq<nat>, r: nat)
    requires Chain(g, k, way) && exists i, j :: 0 <= j < i < |way| && way[j] == way[i] == r
    ensures ReachesItself(g, k, r)
  {
    var i, j :| 0 <= j < i < |way| && way[j] == way[i] == r;
    var loop := way[j..i + 1];
    assert forall x :: 0 <= x < |loop| ==> loop[x] == way[j + x];
    assert Chain(g, k, loop) && loop[0] == r == loop[|loop| - 1];
  }

  // ---------------------------------------------------------------- matching ends

  /** What makes matching end: grammars and loops have been accepted, no grammar is left recursive, and
      look-behinds call no rules. */
  ghost predicate Tame(k: nat, p: Tree, e: nat) {
    Within(p, e) && GrammarsVerified(k, p) && NotLeftRecursive(k, p) && BehindsClosed(p)
  }

  /** The used rules of a grammar that has been accepted. */
  ghost predicate AcceptedRules(g: Rules, k: nat, rank: seq<nat>, e: nat) {
    && Ranking(g, k, rank)
    && forall r :: 0 <= r < |g| && Used(g, r) ==>
        Tame(k, g[r], e) && WellFormed(g, g[r]) && !CheckLoops(g, k, g[r])
  }

  /** What `p` may call first has a rank below `top`. */
  ghost predicate RanksBelow(rank: seq<nat>, calls: set<nat>, top: nat) {
    forall c :: c in calls ==> c < |rank| && rank[c] < top
  }

  function AboveAll(rank: seq<nat>): (top: nat)
    ensures forall r :: 0 <= r < |rank| ==> rank[r] < top
  {
    if rank == [] then 0
    else
      var t := AboveAll(rank[..|rank| - 1]);
      if rank[|rank| - 1] < t then t else rank[|rank| - 1] + 1
  }

  ghost predicate CallsUsed(g: Rules, p: Tree) {
    forall c :: c in Refers(p) ==> c < |g| && Used(g, c)
  }

  /** A pattern at a position, in a grammar that has been accepted. */
  ghost predicate Ready(g: Rules, k: nat, rank: seq<nat>, p: Tree, top: nat, e: nat) {
    && Tame(k, p, e) && WellFormed(g, p) && !CheckLoops(g, k, p)
    && |rank| == |g| && CallsUsed(g, p) && RanksBelow(rank, LeftCalls(g, k, p), top)
    && (Refers(p) != {} ==> AcceptedRules(g, k, rank, e))
  }

  function Max(a: nat, b: nat): nat { if a < b then b else a }

  /** A part of a pattern that stands first in it is as ready as the whole. */
  lemma ReadyPart(g: Rules, k: nat, rank: seq<nat>, p: Tree, top: nat, e: nat, q: Tree, d: nat)
    requires Ready(g, k, rank, p, top, e) && Tame(k, q, d) && WellFormed(g, q) && !CheckLoops(g, k, q)
    requires Refers(q) <= Refers(p) && LeftCalls(g, k, q) <= LeftCalls(g, k, p)
    requires d == e || (d < e && Refers(q) == {})
    ensures Ready(g, k, rank, q, top, d)
  {
  }

  /** A later part is ready where something has been consumed. */
  lemma ReadyLater(g: Rules, k: nat, rank: seq<nat>, p: Tree, top: nat, e: nat, q: Tree)
    requires Ready(g, k, rank, p, top, e) && Tame(k, q, e) && WellFormed(g, q) && !CheckLoops(g, k, q)
    requires Refers(q) <= Refers(p)
    ensures Ready(g, k, rank, q, AboveAll(rank), e)
  {
    LeftCallsRefer(g, k, q);
  }

  lemma ReadyCall(g: Rules, k: nat, rank: seq<nat>, r: nat, top: nat, e: nat)
    requires Ready(g, k, rank, TCall(r), top, e)
    ensures r < |g| && rank[r] < top && Ready(g, k, rank, g[r], rank[r], e)
  {
    assert r in Refers(TCall(r)) && r in LeftCalls(g, k, TCall(r));
    assert RanksAbove(g, k, rank, r);
    RuleCallsUsed(g, r);
  }

  lemma RuleCallsUsed(g: Rules, r: nat)
    requires r < |g| && WellFormed(g, g[r])
    ensures CallsUsed(g, g[r])
  {
    forall c | c in Refers(g[r]) ensures c < |g| && Used(g, c) { RefersInside(g, g[r], c); }
  }

  lemma ReadyGrammar(g: Rules, k: nat, rank: seq<nat>, p: Tree, top: nat, e: nat) returns (inner: seq<nat>)
    requires p.TGrammar? && Ready(g, k, rank, p, top, e)
    ensures p.rules != [] && e > 0 && |inner| == |p.rules|
    ensures Ready(p.rules, k, inner, p.rules[0], inner[0], e - 1)
  {
    var rs := p.rules;
    inner :| Ranking(rs, k, inner);
    assert Used(rs, 0) && RanksAbove(rs, k, inner, 0);
    RuleCallsUsed(rs, 0);
  }

  /** A part of a pattern: sane, and without calls that the whole does not have. */
  ghost predicate PartOf(g: Rules, k: nat, p: Tree, q: Tree, e: nat) {
    Tame(k, q, e) && WellFormed(g, q) && !CheckLoops(g, k, q) && Refers(q) <= Refers(p)
  }

  lemma Parts(g: Rules, k: nat, p: Tree, e: nat)
    requires Tame(k, p, e) && WellFormed(g, p) && !CheckLoops(g, k, p)
    ensures p.TNot? || p.TAnd? || p.TRep? ==>
              PartOf(g, k, p, p.p, e) && LeftCalls(g, k, p.p) <= LeftCalls(g, k, p)
    ensures p.TRep? ==> !Nullable(g, k, p.p)
    ensures p.TBehind? ==>
              && e > 0 && PartOf(g, k, p, p.p, e - 1) && LeftCalls(g, k, p.p) <= LeftCalls(g, k, p)
              && Refers(p.p) == {}
    ensures p.TSeq? || p.TChoice? ==>
              PartOf(g, k, p, p.p1, e) && PartOf(g, k, p, p.p2, e) && LeftCalls(g, k, p.p1) <= LeftCalls(g, k, p)
    ensures p.TChoice? || (p.TSeq? && Nullable(g, k, p.p1)) ==> LeftCalls(g, k, p.p2) <= LeftCalls(g, k, p)
  {
  }

  /** What being ready gives for the parts. */
  lemma ReadyParts(g: Rules, k: nat, rank: seq<nat>, p: Tree, top: nat, e: nat)
    requires Ready(g, k, rank, p, top, e)
    ensures p.TNot? || p.TAnd? || p.TRep? ==> Ready(g, k, rank, p.p, top, e)
    ensures p.TRep? ==> !Nullable(g, k, p.p)
    ensures p.TBehind? ==> e > 0 && Ready(g, k, rank, p.p, top, e - 1)
    ensures p.TSeq? || p.TChoice? ==> Ready(g, k, rank, p.p1, top, e)
    ensures p.TChoice? || (p.TSeq? && Nullable(g, k, p.p1)) ==> Ready(g, k, rank, p.p2, top, e)
    ensures p.TSeq? ==> Ready(g, k, rank, p.p2, AboveAll(rank), e)
  {
    Parts(g, k, p, e);
    hide Ready, Tame, WellFormed, CheckLoops, Refers, LeftCalls, CheckAux, AboveAll;
    match p
    case TNot(q) => ReadyPart(g, k, rank, p, top, e, q, e);
    case TAnd(q) => ReadyPart(g, k, rank, p, top, e, q, e);
    case TRep(q) => ReadyPart(g, k, rank, p, top, e, q, e);
    case TBehind(_, q) => ReadyPart(g, k, rank, p, top, e, q, e - 1);
    case TSeq(p1, p2) =>
      ReadyPart(g, k, rank, p, top, e, p1, e);
      ReadyLater(g, k, rank, p, top, e, p2);
      if Nullable(g, k, p1) { ReadyPart(g, k, rank, p, top, e, p2, e); }
    case TChoice(p1, p2) =>
      ReadyPart(g, k, rank, p, top, e, p1, e);
      ReadyPart(g, k, rank, p, top, e, p2, e);
    case _ =>
  }

  /** Matching a pattern of an accepted grammar ends: it consumes, or calls rules of lower rank, or
      comes to a smaller pattern. */
  lemma {:induction false} Terminates(
      g: Rules, k: nat, rank: seq<nat>, p: Tree, s: seq<byte>, i: nat, top: nat, e: nat)
    returns (n: nat)
    requires i <= |s| && Ready(g, k, rank, p, top, e)
    ensures !Eval(g, p, s, i, n).Diverge?
    decreases e, |s| - i, top, p
  {
    hide Ready;
    ReadyParts(g, k, rank, p, top, e);
    n := 0;
    match p {
      case TNot(q) => n := Terminates(g, k, rank, q, s, i, top, e);
      case TAnd(q) => n := Terminates(g, k, rank, q, s, i, top, e);
      case TBehind(b, q) => if 0 <= b <= i { n := Terminates(g, k, rank, q, s, i - b, top, e - 1); }
      case TRep(q) =>
        n := Terminates(g, k, rank, q, s, i, top, e);
        var a := Eval(g, q, s, i, n);
        if a.Match? {
          if a.pos == i { NullableSound(g, k, q, s, i, n); }
          var m := Terminates(g, k, rank, p, s, a.pos, top, e);
          var l := Max(n, m) + 1;
          EvalMonotone(g, q, s, i, n, l);
          EvalMonotone(g, p, s, a.pos, m, l - 1);
          n := l;
        }
      case TSeq(p1, p2) =>
        n := Terminates(g, k, rank, p1, s, i, top, e);
        var a := Eval(g, p1, s, i, n);
        if a.Match? {
          if a.pos == i { NullableSound(g, k, p1, s, i, n); }
          var m := Terminates(g, k, rank, p2, s, a.pos, if a.pos == i then top else AboveAll(rank), e);
          EvalMonotone(g, p1, s, i, n, Max(n, m));
          EvalMonotone(g, p2, s, a.pos, m, Max(n, m));
          n := Max(n, m);
        }
      case TChoice(p1, p2) =>
        n := Terminates(g, k, rank, p1, s, i, top, e);
        var m := Terminates(g, k, rank, p2, s, i, top, e);
        EvalMonotone(g, p1, s, i, n, Max(n, m));
        EvalMonotone(g, p2, s, i, m, Max(n, m));
        n := Max(n, m);
      case TCall(r) =>
        ReadyCall(g, k, rank, r, top, e);
        n := Terminates(g, k, rank, g[r], s, i, rank[r], e);
        n := n + 1;
      case TGrammar(rs) =>
        var inner := ReadyGrammar(g, k, rank, p, top, e);
        n := Terminates(rs, k, inner, rs[0], s, i, inner[0], e - 1);
      case _ =>
    }
  }

  lemma {:induction false} WithinMore(p: Tree, e1: nat, e2: nat)
    requires Within(p, e1) && e1 <= e2
    ensures Within(p, e2)
    decreases p
  {
    match p
    case TRep(q) => WithinMore(q, e1, e2);
    case TNot(q) => WithinMore(q, e1, e2);
    case TAnd(q) => WithinMore(q, e1, e2);
    case TBehind(_, q) => WithinMore(q, e1 - 1, e2 - 1);
    case TSeq(p1, p2) => WithinMore(p1, e1, e2); WithinMore(p2, e1, e2);
    case TChoice(p1, p2) => WithinMore(p1, e1, e2); WithinMore(p2, e1, e2);
    case TGrammar(rs) => forall r | 0 <= r < |rs| ensures Within(rs[r], e2 - 1) { WithinMore(rs[r], e1 - 1, e2 - 1); }
    case _ =>
  }

  /** Every pattern nests only so deep. */
  lemma {:induction false} Nesting(p: Tree) returns (e: nat)
    ensures Within(p, e)
    decreases p, 1
  {
    e := 0;
    match p {
      case TRep(q) => e := Nesting(q);
      case TNot(q) => e := Nesting(q);
      case TAnd(q) => e := Nesting(q);
      case TBehind(_, q) =>
        e := Nesting(q);
        e := e + 1;
      case TSeq(p1, p2) => e := NestingBoth(p, p1, p2);
      case TChoice(p1, p2) => e := NestingBoth(p, p1, p2);
      case TGrammar(rs) =>
        e := NestingRules(p, |rs|);
        e := e + 1;
      case _ =>
    }
  }

  lemma {:induction false} NestingBoth(p: Tree, p1: Tree, p2: Tree) returns (e: nat)
    requires p1 < p && p2 < p
    ensures Within(p1, e) && Within(p2, e)
    decreases p, 0
  {
    var e1 := Nesting(p1);
    var e2 := Nesting(p2);
    e := Max(e1, e2);
    WithinMore(p1, e1, e);
    WithinMore(p2, e2, e);
  }

  lemma {:induction false} NestingRules(p: Tree, n: nat) returns (e: nat)
    requires p.TGrammar? && n <= |p.rules|
    ensures forall r :: 0 <= r < n ==> Within(p.rules[r], e)
    decreases p, 0, n
  {
    e := 0;
    if n > 0 {
      var e1 := NestingRules(p, n - 1);
      var e2 := Nesting(p.rules[n - 1]);
      e := Max(e1, e2);
      forall r | 0 <= r < n ensures Within(p.rules[r], e) {
        if r < n - 1 { WithinMore(p.rules[r], e1, e); } else { WithinMore(p.rules[r], e2, e); }
      }
    }
  }

  /** Matching a pattern whose grammars and loops have been accepted ends on every subject, if it has no
      left recursion. */
  lemma AcceptedTerminates(k: nat, p: Tree, s: seq<byte>, i: nat) returns (n: nat)
    requires WellFormed([], p) && GrammarsVerified(k, p) && !CheckLoops([], k, p) && BehindsClosed(p)
    requires NotLeftRecursive(k, p)
    requires i <= |s|
    ensures !Eval([], p, s, i, n).Diverge?
  {
    forall c | c in Refers(p) ensures false { RefersInside([], p, c); }
    LeftCallsRefer([], k, p);
    var e := Nesting(p);
    n := Terminates([], k, [], p, s, i, 0, e);
  }
}
