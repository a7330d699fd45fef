/** What the analyses find of a pattern, said without them: the answers are no more cautious than they have to be. */
module PegExact {
  import opened PegTree
  import opened PegAnalysis
  import opened PegGrammar

  // ---------------------------------------------------------------- nullable and nofail

  /** `p` with its predicates taken to hold, or for the question whether it may fail those that can fail taken not to. */
  function Assumed(p: Tree, pred: Question): Tree
    decreases p
  {
    match p
    case TRep(q) => TRep(Assumed(q, pred))
    case TSeq(p1, p2) => TSeq(Assumed(p1, pred), Assumed(p2, pred))
    case TChoice(p1, p2) => TChoice(Assumed(p1, pred), Assumed(p2, pred))
    case TNot(_) => if pred == PEnullable then TTrue else TFalse
    case TBehind(_, _) => if pred == PEnullable then TTrue else TFalse
    case TAnd(q) => if pred == PEnullable then TTrue else TAnd(Assumed(q, pred))
    case TGrammar(rs) => TGrammar(seq(|rs|, j requires 0 <= j < |rs| => Assumed(rs[j], pred)))
    case _ => p
  }

  function AssumedRules(g: Rules, pred: Question): (r: Rules)
    ensures |r| == |g| && forall j :: 0 <= j < |g| ==> r[j] == Assumed(g[j], pred)
  {
    seq(|g|, j requires 0 <= j < |g| => Assumed(g[j], pred))
  }

  /** Both questions of `checkaux` are about the empty subject: is it matched, whenever that is decided? */
  lemma {:induction false} CheckAuxExact(g: Rules, k: nat, p: Tree, pred: Question, n: nat)
    requires n <= k
    ensures var a := Eval(AssumedRules(g, pred), Assumed(p, pred), [], 0, n);
            !a.Diverge? ==> (CheckAux(g, k, p, pred) <==> a == Match(0))
    decreases n, p
  {
    var h := AssumedRules(g, pred);
    match p
    case TAnd(q) => if pred == PEnofail { CheckAuxExact(g, k, q, pred, n); }
    case TSeq(p1, p2) =>
      CheckAuxExact(g, k, p1, pred, n);
      CheckAuxExact(g, k, p2, pred, n);
    case TChoice(p1, p2) =>
      CheckAuxExact(g, k, p1, pred, n);
      CheckAuxExact(g, k, p2, pred, n);
    case TGrammar(rs) =>
      if rs != [] {
        CheckAuxExact(rs, k, rs[0], pred, n);
        assert Assumed(p, pred).rules == AssumedRules(rs, pred);
      }
    case TCall(r) => if n > 0 && r < |g| { CheckAuxExact(g, k - 1, g[r], pred, n - 1); }
    case TRep(_) => NoFailSound(h, k, Assumed(p, pred), [], 0, n);
    case _ =>
  }

  // ---------------------------------------------------------------- fixed length

  ghost function Sums(s: set<nat>, t: set<nat>): set<nat> { set a, b | a in s && b in t :: a + b }

  /** The lengths `p` can match, going by its form alone, with at most `d` calls in a row; a repetition, and a call
      beyond that, has more than one. */
  ghost function Lengths(g: Rules, p: Tree, d: nat): set<nat>
    decreases d, p
  {
    match p
    case TChar(_) => {1}
    case TSet(_) => {1}
    case TAny => {1}
    case TRep(_) => {0, 1}
    case TSeq(p1, p2) => Sums(Lengths(g, p1, d), Lengths(g, p2, d))
    case TChoice(p1, p2) => Lengths(g, p1, d) + Lengths(g, p2, d)
    case TGrammar(rs) => if rs == [] then {0, 1} else Lengths(rs, rs[0], d)
    case TCall(r) => if d == 0 || r >= |g| then {0, 1} else Lengths(g, g[r], d - 1)
    case _ => {0}
  }

  /** A pattern has a fixed length if and only if all the lengths it can match are the same. */
  lemma FixedLenExact(g: Rules, p: Tree)
    ensures var n := FixedLen(g, p);
            var ls := Lengths(g, p, MAXRULES);
            if n >= 0 then ls == {n} else Varies(ls)
  {
    FixedLenFrom(g, p, 0, 0);
  }

  lemma {:induction false} FixedLenFrom(g: Rules, p: Tree, count: nat, len: nat)
    requires count <= MAXRULES
    ensures var n := FixedLenX(g, p, count, len);
            var ls := Lengths(g, p, MAXRULES - count);
            && ls != {} && (n >= 0 ==> n >= len && ls == {n - len})
            && (n < 0 ==> Varies(ls))
    decreases MAXRULES - count, p
  {
    var d := MAXRULES - count;
    match p {
      case TSeq(p1, p2) =>
        FixedLenFrom(g, p1, count, len);
        var n := FixedLenX(g, p1, count, len);
        FixedLenFrom(g, p2, count, if n < 0 then len else n);
        SumsOf(Lengths(g, p1, d), Lengths(g, p2, d));
        var m := FixedLenX(g, p, count, len);
        if m >= 0 { SumOf(n - len, m - n); }
      case TChoice(p1, p2) =>
        FixedLenFrom(g, p1, count, len);
        FixedLenFrom(g, p2, count, len);
      case TGrammar(rs) => if rs != [] { FixedLenFrom(rs, rs[0], count, len); } else { TwoLengths(); }
      case TCall(r) => if d > 0 && r < |g| { FixedLenFrom(g, g[r], count + 1, len); } else { TwoLengths(); }
      case TRep(_) => TwoLengths();
      case _ =>
    }
  }

  ghost predicate Varies(s: set<nat>) { exists a, b :: a in s && b in s && a != b }

  lemma TwoLengths()
    ensures Varies({0, 1})
  {
    var s: set<nat> := {0, 1};
    assert 0 in s && 1 in s;
  }

  lemma SumsOf(s: set<nat>, t: set<nat>)
    requires s != {} && t != {}
    ensures Sums(s, t) != {} && (Varies(s) || Varies(t) ==> Varies(Sums(s, t)))
  {
    var a :| a in s;
    var b :| b in t;
    assert a + b in Sums(s, t);
    if Varies(s) {
      var x, y :| x in s && y in s && x != y;
      assert x + b in Sums(s, t) && y + b in Sums(s, t);
    }
    if Varies(t) {
      var x, y :| x in t && y in t && x != y;
      assert a + x in Sums(s, t) && a + y in Sums(s, t);
    }
  }

  lemma SumOf(x: nat, y: nat)
    ensures Sums({x}, {y}) == {x + y}
  {
    forall c | c in Sums({x}, {y}) ensures c == x + y {
      var e, f :| e in {x} && f in {y} && c == e + f;
    }
    assert x in {x} && y in {y};
    assert x + y in Sums({x}, {y});
  }

  // ---------------------------------------------------------------- which grammars are accepted

  /** All parts of `p`, itself included, that stand in the same grammar. */
  function Parts(p: Tree): set<Tree>
    decreases p
  {
    {p} +
    match p
    case TRep(q) => Parts(q)
    case TNot(q) => Parts(q)
    case TAnd(q) => Parts(q)
    case TBehind(_, q) => Parts(q)
    case TSeq(p1, p2) => Parts(p1) + Parts(p2)
    case TChoice(p1, p2) => Parts(p1) + Parts(p2)
    case _ => {}
  }

  /** A part of `p` is a loop whose body may match without consuming. */
  ghost predicate HasEmptyLoop(g: Rules, k: nat, p: Tree) {
    exists q :: TRep(q) in Parts(p) && Nullable(g, k, q)
  }

  /** `checkloops` reports exactly the patterns that have such a part. */
  lemma {:induction false} CheckLoopsExact(g: Rules, k: nat, p: Tree)
    ensures CheckLoops(g, k, p) <==> HasEmptyLoop(g, k, p)
    decreases p
  {
    hide CheckAux;
    match p
    case TRep(q) =>
      CheckLoopsExact(g, k, q);
      assert p in Parts(p);
    case TNot(q) => CheckLoopsExact(g, k, q);
    case TAnd(q) => CheckLoopsExact(g, k, q);
    case TBehind(_, q) => CheckLoopsExact(g, k, q);
    case TSeq(p1, p2) => CheckLoopsExact(g, k, p1); CheckLoopsExact(g, k, p2);
    case TChoice(p1, p2) => CheckLoopsExact(g, k, p1); CheckLoopsExact(g, k, p2);
    case _ =>
  }

  /** A pattern refers to the rules that its parts call. */
  lemma {:induction false} RefersExact(p: Tree, c: nat)
    ensures c in Refers(p) <==> TCall(c) in Parts(p)
    decreases p
  {
    match p
    case TRep(q) => RefersExact(q, c);
    case TNot(q) => RefersExact(q, c);
    case TAnd(q) => RefersExact(q, c);
    case TBehind(_, q) => RefersExact(q, c);
    case TSeq(p1, p2) => RefersExact(p1, c); RefersExact(p2, c);
    case TChoice(p1, p2) => RefersExact(p1, c); RefersExact(p2, c);
    case _ =>
  }

  /** The initial rule and those that are called somewhere. */
  ghost predicate Called(rs: Rules, r: nat) { r == 0 || exists q :: 0 <= q < |rs| && TCall(r) in Parts(rs[q]) }

  /** A grammar is accepted if and only if no rule that is called runs into too many calls or has an empty loop. */
  lemma VerifyGrammarExact(k: nat, rs: Rules)
    ensures VerifyGrammar(k, rs) <==>
              forall r :: 0 <= r < |rs| && Called(rs, r) ==>
                VerifyRule(false, rs, k, rs[r], 0, false).Passes? && !HasEmptyLoop(rs, k, rs[r])
  {
    hide VerifyRule, Parts, Refers, CheckLoops, HasEmptyLoop;
    forall r: nat | r < |rs| ensures (Used(rs, r) <==> Called(rs, r)) && (CheckLoops(rs, k, rs[r]) <==> HasEmptyLoop(rs, k, rs[r])) {
      forall q | 0 <= q < |rs| ensures r in Refers(rs[q]) <==> TCall(r) in Parts(rs[q]) { RefersExact(rs[q], r); }
      CheckLoopsExact(rs, k, rs[r]);
    }
  }

  /** So one without left recursion and without empty loops is, if it has no more rules than allowed. */
  lemma GoodAccepted(k: nat, rs: Rules)
    requires |rs| <= MAXRULES && exists rank :: Ranking(rs, k, rank)
    requires forall r :: 0 <= r < |rs| && Called(rs, r) ==> !HasEmptyLoop(rs, k, rs[r])
    ensures VerifyGrammar(k, rs)
  {
    RankedVerified(false, k, rs);
    VerifyGrammarPart(k, rs);
    hide VerifyRule, HasEmptyLoop, Called;
    VerifyGrammarExact(k, rs);
  }

  lemma VerifyGrammarPart(k: nat, rs: Rules)
    requires VerifyLeftCalls(false, k, rs)
    ensures forall r :: 0 <= r < |rs| && Called(rs, r) ==> VerifyRule(false, rs, k, rs[r], 0, false).Passes?
  {
    forall r: nat | r < |rs| && Called(rs, r) ensures VerifyRule(false, rs, k, rs[r], 0, false).Passes? {
      if r != 0 {
        var q :| 0 <= q < |rs| && TCall(r) in Parts(rs[q]);
        RefersExact(rs[q], r);
      }
      assert Used(rs, r);
    }
  }

  /** In no grammar inside `p` does a rule that is called have an empty loop. */
  ghost predicate LoopsConsume(k: nat, p: Tree)
    decreases p
  {
    match p
    case TRep(q) => LoopsConsume(k, q)
    case TNot(q) => LoopsConsume(k, q)
    case TAnd(q) => LoopsConsume(k, q)
    case TBehind(_, q) => LoopsConsume(k, q)
    case TSeq(p1, p2) => LoopsConsume(k, p1) && LoopsConsume(k, p2)
    case TChoice(p1, p2) => LoopsConsume(k, p1) && LoopsConsume(k, p2)
    case TGrammar(rs) =>
      && (forall r :: 0 <= r < |rs| && Called(rs, r) ==> !HasEmptyLoop(rs, k, rs[r]))
      && forall r :: 0 <= r < |rs| ==> LoopsConsume(k, rs[r])
    case _ => true
  }

  /** All grammars of such a pattern are accepted. */
  lemma {:induction false} GoodVerified(g: Rules, k: nat, p: Tree)
    requires WellFormed(g, p) && NotLeftRecursive(k, p) && LoopsConsume(k, p)
    ensures GrammarsVerified(k, p)
    decreases p
  {
    match p
    case TRep(q) => GoodVerified(g, k, q);
    case TNot(q) => GoodVerified(g, k, q);
    case TAnd(q) => GoodVerified(g, k, q);
    case TBehind(_, q) => GoodVerified(g, k, q);
    case TSeq(p1, p2) => GoodVerified(g, k, p1); GoodVerified(g, k, p2);
    case TChoice(p1, p2) => GoodVerified(g, k, p1); GoodVerified(g, k, p2);
    case TGrammar(rs) =>
      GoodAccepted(k, rs);
      forall r | 0 <= r < |rs| ensures GrammarsVerified(k, rs[r]) { GoodVerified(rs, k, rs[r]); }
    case _ =>
  }

  /** No grammar inside. */
  predicate Plain(p: Tree) {
    match p
    case TRep(q) => Plain(q)
    case TNot(q) => Plain(q)
    case TAnd(q) => Plain(q)
    case TBehind(_, q) => Plain(q)
    case TSeq(p1, p2) => Plain(p1) && Plain(p2)
    case TChoice(p1, p2) => Plain(p1) && Plain(p2)
    case TGrammar(_) => false
    case _ => true
  }

  /** Without embedded grammars there is nothing that the check could forget. */
  lemma {:induction false} PlainVerdict(g: Rules, k: nat, p: Tree, np: nat, nb: bool)
    requires np <= MAXRULES && Plain(p) && forall r :: 0 <= r < |g| ==> Plain(g[r])
    ensures VerifyRule(false, g, k, p, np, nb) == VerifyRule(true, g, k, p, np, nb)
    decreases MAXRULES - np, p
  {
    match p
    case TNot(q) => PlainVerdict(g, k, q, np, true);
    case TAnd(q) => PlainVerdict(g, k, q, np, true);
    case TRep(q) => PlainVerdict(g, k, q, np, true);
    case TCall(r) => if np < MAXRULES && r < |g| { PlainVerdict(g, k, g[r], np + 1, nb); }
    case TSeq(p1, p2) => PlainVerdict(g, k, p1, np, false); PlainVerdict(g, k, p2, np, nb);
    case TChoice(p1, p2) =>
      PlainVerdict(g, k, p1, np, nb);
      var v := VerifyRule(true, g, k, p1, np, nb);
      if v.Passes? { PlainVerdict(g, k, p2, np, v.empty); }
    case _ =>
  }

  lemma {:induction false} PlainKept(k: nat, p: Tree)
    requires Plain(p)
    ensures GrammarsKept(k, p) && NotLeftRecursive(k, p)
    decreases p
  {
    match p
    case TRep(q) => PlainKept(k, q);
    case TNot(q) => PlainKept(k, q);
    case TAnd(q) => PlainKept(k, q);
    case TBehind(_, q) => PlainKept(k, q);
    case TSeq(p1, p2) => PlainKept(k, p1); PlainKept(k, p2);
    case TChoice(p1, p2) => PlainKept(k, p1); PlainKept(k, p2);
    case _ =>
  }

  /** So for grammars without embedded ones the check as it is is exact. */
  lemma PlainExact(k: nat, rs: Rules, e: nat)
    requires WellFormed([], TGrammar(rs)) && BehindsClosed(TGrammar(rs)) && Within(TGrammar(rs), e) && MAXRULES * e <= k
    requires forall r :: 0 <= r < |rs| ==> Plain(rs[r])
    ensures VerifyLeftCalls(false, k, rs) <==> exists rank :: Ranking(rs, k, rank)
  {
    LeftCallsExact(k, TGrammar(rs), e);
    forall r: nat | r < |rs|
      ensures VerifyRule(false, rs, k, rs[r], 0, false) == VerifyRule(true, rs, k, rs[r], 0, false)
      ensures GrammarsKept(k, rs[r]) && NotLeftRecursive(k, rs[r]) {
      PlainVerdict(rs, k, rs[r], 0, false);
      PlainKept(k, rs[r]);
    }
    hide VerifyRule, Plain, Used;
  }
}
