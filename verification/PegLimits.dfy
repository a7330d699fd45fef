/** Where the library does not keep what it promises: patterns that it accepts, although compiling them or
    matching them does not end, or that it compiles to something else, each the reason for a condition of the
    theorems elsewhere.  Not all of those whose matching would not end get as far as that: where a grammar is left
    recursive, analyses of the original follow calls without end. */
module PegLimits {
  import opened PegTree
  import opened PegAnalysis
  import opened PegCode
  import opened PegMachine
  import opened PegFlow
  import opened PegJumps
  import opened PegGrammar
  import opened PegCaptures
  import PegCorrect

  const LETTER_A: byte := 97

  // ---------------------------------------------------------------- an embedded grammar

  /** G: a grammar that matches one letter. */
  function OneLetter(): Tree { TGrammar([TChar(LETTER_A)]) }

  /** A <- G^0 A */
  function LoopOfGrammar(): Tree { TGrammar([TSeq(TRep(OneLetter()), TCall(0))]) }

  lemma OneLetterFacts(g: Rules, k: nat, n: nat)
    ensures var p := OneLetter();
            && WellFormed(g, p) && GrammarsVerified(k, p) && BehindsClosed(p)
            && !Nullable(g, k, p) && Eval(g, p, [], 0, n) == Fail
  {
    var rs := OneLetter().rules;
    assert rs[0] == TChar(LETTER_A);
    assert forall r :: 0 <= r < |rs| ==> rs[r] == TChar(LETTER_A);
    assert !Nullable(rs, k, rs[0]) && WellFormed(rs, rs[0]) && !CheckLoops(rs, k, rs[0]);
    assert VerifyRule(false, rs, k, rs[0], 0, false) == Passes(false);
    assert GrammarsVerified(k, rs[0]) && BehindsClosed(rs[0]);
    assert Eval(rs, rs[0], [], 0, n) == Fail;
  }

  lemma EmbeddedAccepted(k: nat)
    ensures var rs := LoopOfGrammar().rules;
            && WellFormed(rs, rs[0]) && GrammarsVerified(k, rs[0]) && !CheckLoops(rs, k, rs[0]) && BehindsClosed(rs[0])
            && VerifyRule(false, rs, k, rs[0], 0, false).Passes?
  {
    var rs := LoopOfGrammar().rules;
    OneLetterFacts(rs, k, 0);
    var g := OneLetter();
    assert g.TGrammar?;
    hide OneLetter;
    var loop := TRep(g);
    assert rs[0] == TSeq(loop, TCall(0));
    assert VerifyRule(false, rs, k, loop, 0, false) == Passes(false);
    assert GrammarsVerified(k, loop) && BehindsClosed(loop) && GrammarsVerified(k, TCall(0)) && BehindsClosed(TCall(0));
    assert !CheckLoops(rs, k, loop) && WellFormed(rs, loop) && WellFormed(rs, TCall(0));
  }

  /** Accepted, although the loop can be passed without consuming and A then calls itself: the
      check takes an embedded grammar's own nullability where it should keep `nb`. */
  lemma EmbeddedGrammarMissed(k: nat, n: nat)
    ensures var p := LoopOfGrammar();
            && WellFormed([], p) && GrammarsVerified(k, p) && !CheckLoops([], k, p) && BehindsClosed(p)
            && !NotLeftRecursive(k, p) && Eval([], p, [], 0, n).Diverge?
  {
    hide OneLetter, WellFormed, GrammarsVerified, CheckLoops, BehindsClosed, VerifyRule;
    var p := LoopOfGrammar();
    var rs := p.rules;
    EmbeddedAccepted(k);
    assert rs == [rs[0]];
    OneRule(k, rs[0]);
    NoLoops(k, p);
    CallsItself(rs, n);
    LeftAgain(rs, k);
    NoRank(rs, k);
  }

  lemma LeftAgain(rs: Rules, k: nat)
    requires rs == LoopOfGrammar().rules
    ensures 0 in LeftCalls(rs, k, rs[0])
  {
    hide OneLetter;
    var loop := TRep(OneLetter());
    assert rs[0] == TSeq(loop, TCall(0));
    assert 0 in LeftCalls(rs, k, TCall(0)) && Nullable(rs, k, loop);
  }

  lemma NoRank(rs: Rules, k: nat)
    requires rs != [] && 0 in LeftCalls(rs, k, rs[0])
    ensures !exists rank :: Ranking(rs, k, rank)
  {
    forall rank ensures !Ranking(rs, k, rank) {
      if |rank| == |rs| { assert !RanksAbove(rs, k, rank, 0); }
    }
  }

  lemma {:induction false} CallsItself(rs: Rules, n: nat)
    requires rs == LoopOfGrammar().rules
    ensures Eval(rs, rs[0], [], 0, n).Diverge?
  {
    OneLetterFacts(rs, 0, n);
    hide OneLetter;
    var loop := TRep(OneLetter());
    assert rs[0] == TSeq(loop, TCall(0));
    assert Eval(rs, loop, [], 0, n) == Match(0);
    if n > 0 { CallsItself(rs, n - 1); }
    assert Eval(rs, TCall(0), [], 0, n).Diverge?;
  }

  // ---------------------------------------------------------------- a look-behind

  /** A <- B(&A): a look-behind of length 0 whose body calls the rule it stands in. */
  function LoopOfBehind(): Tree { TGrammar([TBehind(0, TAnd(TCall(0)))]) }

  /** Accepted, although A calls itself at once: the check takes it that a look-behind has no calls,
      but only what its length depends on has none. */
  lemma BehindCallMissed(k: nat, n: nat)
    ensures var p := LoopOfBehind();
            && WellFormed([], p) && GrammarsVerified(k, p) && !CheckLoops([], k, p)
            && !BehindsClosed(p) && !NotLeftRecursive(k, p) && Eval([], p, [], 0, n).Diverge?
  {
    var p := LoopOfBehind();
    var rs := p.rules;
    var q := TAnd(TCall(0));
    assert rs[0] == TBehind(0, q);
    assert forall r :: 0 <= r < |rs| ==> rs[r] == TBehind(0, q);
    assert FixedLen(rs, q) == 0 && WellFormed(rs, TCall(0)) && WellFormed(rs, q) && WellFormed(rs, rs[0]);
    assert 0 in Refers(TCall(0)) && 0 in Refers(q) && !BehindsClosed(rs[0]);
    assert !CheckLoops(rs, k, TCall(0)) && !CheckLoops(rs, k, q) && !CheckLoops(rs, k, rs[0]);
    assert GrammarsVerified(k, TCall(0)) && GrammarsVerified(k, q) && GrammarsVerified(k, rs[0]);
    BehindCallsItself(rs, n);
    assert 0 in LeftCalls(rs, k, TCall(0)) && 0 in LeftCalls(rs, k, q) && 0 in LeftCalls(rs, k, rs[0]);
    NoRank(rs, k);
  }

  lemma {:induction false} BehindCallsItself(rs: Rules, n: nat)
    requires rs == LoopOfBehind().rules
    ensures Eval(rs, rs[0], [], 0, n).Diverge?
  {
    var q := TAnd(TCall(0));
    assert rs[0] == TBehind(0, q);
    if n > 0 { BehindCallsItself(rs, n - 1); }
    assert Eval(rs, TCall(0), [], 0, n).Diverge?;
    assert Eval(rs, q, [], 0, n).Diverge?;
  }

  /** A <- 'a' B(!A 'a'): after its letter A looks back one and calls itself there. */
  function LoopOfLookingBack(): Tree {
    TGrammar([TSeq(TChar(LETTER_A), TBehind(1, TSeq(TNot(TCall(0)), TChar(LETTER_A))))])
  }

  lemma LookingBackBuilt()
    ensures var rs := LoopOfLookingBack().rules; WellFormed(rs, rs[0]) && !BehindsClosed(rs[0])
  {
    var rs := LoopOfLookingBack().rules;
    var c, q := TChar(LETTER_A), TNot(TCall(0));
    var b := TSeq(q, c);
    assert rs[0] == TSeq(c, TBehind(1, b));
    assert FixedLen(rs, b) == 1 by { assert FixedLenX(rs, q, 0, 0) == 0 && FixedLenX(rs, c, 0, 0) == 1; }
    assert WellFormed(rs, TCall(0)) && WellFormed(rs, q) && WellFormed(rs, b) && WellFormed(rs, TBehind(1, b));
    assert 0 in Refers(TCall(0)) && 0 in Refers(q) && 0 in Refers(b) && !BehindsClosed(TBehind(1, b));
  }

  lemma LookingBackAccepted(k: nat)
    ensures var rs := LoopOfLookingBack().rules;
            VerifyRule(false, rs, k, rs[0], 0, false).Passes? && !CheckLoops(rs, k, rs[0]) && GrammarsVerified(k, rs[0])
  {
    var rs := LoopOfLookingBack().rules;
    var c, q := TChar(LETTER_A), TNot(TCall(0));
    var b := TSeq(q, c);
    assert rs[0] == TSeq(c, TBehind(1, b));
    assert !CheckLoops(rs, k, TCall(0)) && !CheckLoops(rs, k, c);
    assert !CheckLoops(rs, k, q) && !CheckLoops(rs, k, b) && !CheckLoops(rs, k, TBehind(1, b));
    assert GrammarsVerified(k, TCall(0)) && GrammarsVerified(k, c) && GrammarsVerified(k, q) && GrammarsVerified(k, b);
    assert GrammarsVerified(k, TBehind(1, b));
    assert VerifyRule(false, rs, k, c, 0, false) == Passes(false);
  }

  lemma LookingBackRanked(k: nat)
    ensures var rs := LoopOfLookingBack().rules; Ranking(rs, k, [0]) && NotLeftRecursive(k, rs[0])
  {
    var rs := LoopOfLookingBack().rules;
    var c, q := TChar(LETTER_A), TNot(TCall(0));
    var b := TSeq(q, c);
    assert rs[0] == TSeq(c, TBehind(1, b));
    assert !Nullable(rs, k, c) && LeftCalls(rs, k, c) == {} && LeftCalls(rs, k, rs[0]) == {};
    assert RanksAbove(rs, k, [0], 0);
    assert NotLeftRecursive(k, TCall(0)) && NotLeftRecursive(k, q) && NotLeftRecursive(k, b);
    assert NotLeftRecursive(k, TBehind(1, b));
  }

  /** Without left recursion such a call still keeps matching from ending. */
  lemma LookingBackMissed(k: nat, n: nat)
    ensures var p := LoopOfLookingBack();
            && WellFormed([], p) && GrammarsVerified(k, p) && !CheckLoops([], k, p) && NotLeftRecursive(k, p)
            && !BehindsClosed(p) && Eval([], p, [LETTER_A], 0, n).Diverge?
  {
    LookingBackBuilt();
    LookingBackAccepted(k);
    LookingBackRanked(k);
    var rs := LoopOfLookingBack().rules;
    assert forall r :: 0 <= r < |rs| ==> rs[r] == rs[0];
    LooksBackAgain(rs, n);
    var rank := [0];
    assert Ranking(rs, k, rank);
  }

  lemma {:induction false} LooksBackAgain(rs: Rules, n: nat)
    requires rs == LoopOfLookingBack().rules
    ensures Eval(rs, rs[0], [LETTER_A], 0, n).Diverge?
  {
    var s, c, q := [LETTER_A], TChar(LETTER_A), TNot(TCall(0));
    var b := TSeq(q, c);
    assert rs[0] == TSeq(c, TBehind(1, b));
    if n > 0 { LooksBackAgain(rs, n - 1); }
    assert Eval(rs, TCall(0), s, 0, n).Diverge?;
    assert Eval(rs, q, s, 0, n).Diverge?;
    assert Eval(rs, b, s, 0, n).Diverge?;
    assert Eval(rs, c, s, 0, n) == Match(1);
    assert Eval(rs, TBehind(1, b), s, 1, n).Diverge?;
  }

  // ---------------------------------------------------------------- jumps

  /** A <- !G A, where G is a grammar that always fails. */
  function LoopOfJumps(): Tree { TGrammar([TSeq(TNot(Failing()), TCall(0))]) }

  function Failing(): Tree { TGrammar([TFalse]) }

  lemma FailingFacts(g: Rules, k: nat, s: seq<byte>, i: nat, n: nat)
    requires i <= |s|
    ensures var q := TNot(Failing());
            && WellFormed(g, q) && GrammarsVerified(k, q) && BehindsClosed(q) && !CheckLoops(g, k, q)
            && AsksEnd(g, k, q) && LeadOf(g, k, q) == Ends && VerifyRule(false, g, k, q, 0, false) == Passes(false)
            && Eval(g, q, s, i, n) == Match(i)
  {
    var p := Failing();
    var rs := p.rules;
    assert rs[0] == TFalse;
    assert forall r :: 0 <= r < |rs| ==> rs[r] == TFalse;
    assert !Nullable(rs, k, rs[0]) && WellFormed(rs, rs[0]) && !CheckLoops(rs, k, rs[0]) && GrammarsVerified(k, rs[0]);
    assert VerifyRule(false, rs, k, rs[0], 0, false) == Passes(false);
    assert GetFirst(rs, k, rs[0], FULLSET) == First({}, false) == GetFirst(g, k, p, FULLSET);
    assert HeadFail(rs, k, rs[0]) && HeadFail(g, k, p) && NeverStarts(g, k, p);
    assert Eval(rs, rs[0], s, i, n) == Fail;
    assert VerifyRule(false, g, k, p, 0, true) == Passes(false);
  }

  /** Accepted, and left recursive: the code of the negation is a jump over it, and that of the call behind it
      a jump back to the start.  No other part of the compiler follows the call. */
  lemma JumpsForEver(k: nat, s: seq<byte>, n: nat)
    ensures var p := LoopOfJumps();
            && WellFormed([], p) && GrammarsVerified(k, p) && !CheckLoops([], k, p) && BehindsClosed(p) && AsksEnd([], k, p)
            && !JumpsEnd([], k, p) && !Flows(PegCorrect.Compiled(k, p)) && Eval([], p, s, 0, n).Diverge?
  {
    hide Failing, Flows, PegCorrect.Compiled, WellFormed, GrammarsVerified, BehindsClosed, AsksEnd, VerifyRule, TailsEnd, CheckLoops;
    var p := LoopOfJumps();
    var q := TNot(Failing());
    JumpsAccepted(k);
    JumpsBack(p.rules, k);
    CallsAgain(p.rules, s, n);
    CompiledJumps(k, p);
    assert !JumpsEnd([], k, p);
    assert !CheckLoops([], k, p) by { NoLoops(k, p); }
  }

  lemma NoLoops(k: nat, p: Tree)
    requires p.TGrammar?
    ensures !CheckLoops([], k, p)
  {
  }

  /** In the code of a whole pattern, too, following jumps ends exactly where it does in the tree. */
  lemma CompiledJumps(k: nat, p: Tree)
    requires WellFormed([], p)
    ensures Flows(PegCorrect.Compiled(k, p)) <==> JumpsEnd([], k, p)
  {
    GenJumps([], k, p, false, NoTest, FULLSET);
    var c := Gen([], k, p, false, NoTest, FULLSET);
    hide Gen, LabelsIn, Flows, JumpsEnd;
    assert PegCorrect.Compiled(k, p) == c + [IEnd];
    FlowsOne(IEnd);
    FlowsLabels([IEnd]);
    FlowsConcat(c, [IEnd]);
  }

  lemma JumpsAccepted(k: nat)
    ensures var p := LoopOfJumps(); WellFormed([], p) && GrammarsVerified(k, p) && BehindsClosed(p) && AsksEnd([], k, p)
  {
    var rs := LoopOfJumps().rules;
    var q := TNot(Failing());
    FailingFacts(rs, k, [], 0, 0);
    hide Failing;
    var p := TSeq(q, TCall(0));
    assert WellFormed(rs, TCall(0)) && GrammarsVerified(k, TCall(0)) && BehindsClosed(TCall(0)) && AsksEnd(rs, k, TCall(0));
    assert !CheckLoops(rs, k, TCall(0)) && VerifyRule(false, rs, k, p, 0, false) == Passes(false);
    OneRule(k, p);
  }

  /** A grammar of one rule. */
  lemma OneRule(k: nat, q: Tree)
    requires WellFormed([q], q) && GrammarsVerified(k, q) && BehindsClosed(q) && !CheckLoops([q], k, q)
    requires VerifyRule(false, [q], k, q, 0, false).Passes?
    ensures var p := TGrammar([q]);
            && WellFormed([], p) && GrammarsVerified(k, p) && BehindsClosed(p)
            && (AsksEnd([], k, p) <==> AsksEnd([q], k, q))
  {
    assert forall r :: 0 <= r < |[q]| ==> [q][r] == q;
    assert [q][0] == q;
  }

  lemma JumpsBack(rs: Rules, k: nat)
    requires rs == LoopOfJumps().rules
    ensures !TailsEnd(rs, k)
  {
    FailingFacts(rs, k, [], 0, 0);
    hide Failing;
    assert rs[0] == TSeq(TNot(Failing()), TCall(0));
    assert LeadOf(rs, k, TCall(0)) == Calls(0, true);
    assert LeadOf(rs, k, rs[0]) == Calls(0, true);
    assert Hops(rs, k, 0, 1) == Hops(rs, k, 0, 0) == 0;
    assert ComesBack(rs, k, 0);
    TailsEndExact(rs, k);
  }

  lemma {:induction false} CallsAgain(rs: Rules, s: seq<byte>, n: nat)
    requires rs == LoopOfJumps().rules
    ensures Eval(rs, rs[0], s, 0, n).Diverge?
  {
    FailingFacts(rs, 0, s, 0, n);
    hide Failing;
    assert rs[0] == TSeq(TNot(Failing()), TCall(0));
    if n > 0 { CallsAgain(rs, s, n - 1); }
    assert Eval(rs, TCall(0), s, 0, n).Diverge?;
  }

  // ---------------------------------------------------------------- captures

  /** A <- 'a' !&A */
  function LoopOfAsking(): Tree { TGrammar([AskingRule()]) }

  function AskingRule(): Tree { TSeq(TChar(LETTER_A), TNot(TAnd(TCall(0)))) }

  /** Accepted, without left recursion and without a look-behind; but at the predicate, whose body has length 1 and is
      coded, the question for captures follows the call into the rule it stands in, again and again. */
  lemma AskedForEver(k: nat)
    ensures var p := LoopOfAsking();
            && WellFormed([], p) && GrammarsVerified(k, p) && !CheckLoops([], k, p) && BehindsClosed(p) && NotLeftRecursive(k, p)
            && FixedLen(p.rules, TCall(0)) == 1 && !HeadFail(p.rules, k, TAnd(TCall(0))) && !AskEnds(p.rules, TCall(0))
            && !AsksEnd([], k, p)
  {
    AskingAccepted(k);
    AskingRanked(k);
    AskingCoded(k);
    hide GrammarsVerified, BehindsClosed, NotLeftRecursive, HeadFail, VerifyRule, CheckLoops;
    var rs := LoopOfAsking().rules;
    assert rs[0] == AskingRule();
    NotAskable(rs);
    OneRule(k, AskingRule());
    AskEndsExact(rs, TCall(0));
    NoLoops(k, LoopOfAsking());
    assert !AsksEnd(rs, k, TAnd(TCall(0)));
    assert !AsksEnd(rs, k, TNot(TAnd(TCall(0))));
  }

  lemma NotAskable(rs: Rules)
    requires rs == [AskingRule()]
    ensures !Askable(rs, TCall(0))
  {
    assert 0 in Refers(TCall(0)) && 0 in Refers(TAnd(TCall(0))) && 0 in Refers(TNot(TAnd(TCall(0)))) && 0 in Refers(rs[0]);
    assert !CallsForward(rs, 0) && !OrderedFrom(rs, 0);
  }

  lemma AskingCoded(k: nat)
    ensures var rs := [AskingRule()]; FixedLen(rs, TCall(0)) == 1 && !HeadFail(rs, k, TAnd(TCall(0)))
  {
    var rs := [AskingRule()];
    var c, q := TChar(LETTER_A), TNot(TAnd(TCall(0)));
    assert FixedLenX(rs, c, 1, 0) == 1 && FixedLenX(rs, q, 1, 1) == 1 && FixedLenX(rs, rs[0], 1, 0) == 1;
    assert forall m: nat :: !NoFail(rs, m, q) && !HeadFail(rs, m, rs[0]);
    assert !HeadFail(rs, k, TCall(0));
  }

  lemma AskingRanked(k: nat)
    ensures NotLeftRecursive(k, LoopOfAsking())
  {
    var rs := LoopOfAsking().rules;
    var c, a := TChar(LETTER_A), TAnd(TCall(0));
    assert rs[0] == TSeq(c, TNot(a));
    assert forall r :: 0 <= r < |rs| ==> rs[r] == rs[0];
    assert NotLeftRecursive(k, TCall(0)) && NotLeftRecursive(k, a) && NotLeftRecursive(k, TNot(a)) && NotLeftRecursive(k, rs[0]);
    assert !Nullable(rs, k, c) && LeftCalls(rs, k, c) == {} && LeftCalls(rs, k, rs[0]) == {};
    assert RanksAbove(rs, k, [0], 0);
    assert Ranking(rs, k, [0]);
  }

  lemma AskingAccepted(k: nat)
    ensures var q := AskingRule();
            && WellFormed([q], q) && GrammarsVerified(k, q) && BehindsClosed(q) && !CheckLoops([q], k, q)
            && VerifyRule(false, [q], k, q, 0, false).Passes?
  {
    var rs := [AskingRule()];
    var c, a := TChar(LETTER_A), TAnd(TCall(0));
    var q := TNot(a);
    assert WellFormed(rs, TCall(0)) && WellFormed(rs, a) && WellFormed(rs, q);
    assert GrammarsVerified(k, TCall(0)) && GrammarsVerified(k, a) && GrammarsVerified(k, q);
    assert BehindsClosed(TCall(0)) && BehindsClosed(a) && BehindsClosed(q);
    assert !CheckLoops(rs, k, TCall(0)) && !CheckLoops(rs, k, a) && !CheckLoops(rs, k, q);
    assert VerifyRule(false, rs, k, c, 0, false) == Passes(false);
  }

  // ---------------------------------------------------------------- rule numbers

  /** The first rule is 'a' followed by a call of rule `r`. */
  function FirstRule(r: nat): Tree { TSeq(TChar(LETTER_A), TCall(r)) }

  /** 257 rules; all but the first match at once. */
  function ManyRules(r: nat): (p: Tree)
    ensures p.TGrammar? && |p.rules| == 257 && p.rules[0] == FirstRule(r)
    ensures forall j :: 1 <= j < 257 ==> p.rules[j] == TTrue
  {
    TGrammar([FirstRule(r)] + seq(256, i => TTrue))
  }

  lemma {:induction false} SameRules(k: nat, r: nat, a: nat)
    requires 1 <= r <= 257
    ensures GenRules(ManyRules(256), k, r) == GenRules(ManyRules(0), k, r)
    ensures Positions(ManyRules(256), k, r, a) == Positions(ManyRules(0), k, r, a)
    decreases 257 - r
  {
    hide ManyRules;
    if r < 257 { SameRules(k, r + 1, a + 1); }
  }

  lemma FirstRuleCode(g: Rules, k: nat, r: nat)
    requires r == 0 || r == 256
    ensures Gen(g, k, FirstRule(r), false, NoTest, FULLSET) == [IChar(LETTER_A), IOpenCall(0), Hole]
  {
    assert Gen(g, k, TChar(LETTER_A), false, NoTest, FULLSET) == [IChar(LETTER_A)];
    var t := SecondTest(g, TChar(LETTER_A), NoTest);
    assert Gen(g, k, TCall(r), false, t, FULLSET) == [IOpenCall(0), Hole];
  }

  lemma RulesBegin(p: Tree, k: nat, c: Code)
    requires p.TGrammar? && p.rules != [] && Gen(p.rules, k, p.rules[0], false, NoTest, FULLSET) == c
    ensures GenRules(p, k, 0) == c + [IRet] + GenRules(p, k, 1)
    ensures Positions(p, k, 0, 0) == [0] + Positions(p, k, 1, |c| + 1)
  {
    UnfoldRules(p, k, 0, 0);
  }

  lemma ManyCode(k: nat, r: nat)
    requires r == 0 || r == 256
    ensures var p := ManyRules(r);
            && GenRules(p, k, 0) == [IChar(LETTER_A), IOpenCall(0), Hole] + [IRet] + GenRules(p, k, 1)
            && Positions(p, k, 0, 0) == [0] + Positions(p, k, 1, 4)
  {
    hide ManyRules, FirstRule;
    FirstRuleCode(ManyRules(r).rules, k, r);
    RulesBegin(ManyRules(r), k, [IChar(LETTER_A), IOpenCall(0), Hole]);
  }

  /** A rule keeps its number in one byte, so a call of rule 256 is compiled as a call of rule 0. */
  lemma SameCode(k: nat)
    ensures PegCorrect.Compiled(k, ManyRules(256)) == PegCorrect.Compiled(k, ManyRules(0))
  {
    hide ManyRules, PegCorrect.Compiled;
    ManyCode(k, 0);
    ManyCode(k, 256);
    SameRules(k, 1, 4);
    SameGrammarCode(k, ManyRules(256), ManyRules(0));
  }

  lemma SameGrammarCode(k: nat, p: Tree, q: Tree)
    requires p.TGrammar? && q.TGrammar?
    requires GenRules(p, k, 0) == GenRules(q, k, 0) && Positions(p, k, 0, 0) == Positions(q, k, 0, 0)
    ensures PegCorrect.Compiled(k, p) == PegCorrect.Compiled(k, q)
  {
  }

  lemma ManyAnswers()
    ensures Eval([], ManyRules(256), [LETTER_A], 0, 1) == Match(1)
    ensures Eval([], ManyRules(0), [LETTER_A], 0, 1) == Fail
  {
    hide ManyRules;
    var p, q, s := ManyRules(256), ManyRules(0), [LETTER_A];
    assert Eval(p.rules, p.rules[256], s, 1, 0) == Match(1);
    assert Eval(p.rules, TCall(256), s, 1, 1) == Match(1);
    assert Eval(q.rules, TChar(LETTER_A), s, 1, 0) == Fail;
    assert Eval(q.rules, q.rules[0], s, 1, 0) == Fail;
    assert Eval(q.rules, TCall(0), s, 1, 1) == Fail;
    assert Eval(p.rules, TChar(LETTER_A), s, 0, 1) == Match(1) == Eval(q.rules, TChar(LETTER_A), s, 0, 1);
    assert Eval(p.rules, p.rules[0], s, 0, 1) == Match(1);
    assert Eval(q.rules, q.rules[0], s, 0, 1) == Fail;
  }

  lemma ManyAccepted(k: nat)
    ensures GrammarsVerified(k, ManyRules(256)) && WellFormed([], ManyRules(0))
  {
    hide ManyRules;
    var p, q := ManyRules(256).rules, ManyRules(0).rules;
    assert VerifyRule(false, p, k, TChar(LETTER_A), 0, false) == Passes(false);
    assert WellFormed(q, TCall(0)) && WellFormed(q, q[0]);
    forall r | 0 <= r < |p| ensures VerifyRule(false, p, k, p[r], 0, false).Passes? && !CheckLoops(p, k, p[r]) {}
    forall r | 0 <= r < |p| ensures GrammarsVerified(k, p[r]) && WellFormed(q, q[r]) {}
  }

  /** The answer of the machine is then not the meaning of the pattern. */
  lemma RuleNumbersWrap(k: nat)
    ensures var p := ManyRules(256);
            && |p.rules| <= MAXRULES && GrammarsVerified(k, p)
            && Eval([], p, [LETTER_A], 0, 1) == Match(1)
            && Answers(PegCorrect.Compiled(k, p), [LETTER_A], 0, Fail)
            && !Answers(PegCorrect.Compiled(k, p), [LETTER_A], 0, Match(1))
  {
    ManyAnswers();
    ManyAccepted(k);
    SameCode(k);
    hide ManyRules, Eval, WellFormed, GrammarsVerified, PegCorrect.Compiled, Answers;
    var p, s := ManyRules(256), [LETTER_A];
    PegCorrect.CompiledCorrect(k, ManyRules(0), s, 0, 1);
    if Answers(PegCorrect.Compiled(k, p), s, 0, Match(1)) {
      AnswerUnique(PegCorrect.Compiled(k, p), s, 0, Match(1), Fail);
      assert false;
    }
  }
}
