/** Correcting calls in place: the state between two instructions. */
module PegCalls {
  import opened PegTree
  import opened PegAnalysis
  import opened PegCode
  import opened PegLink
  import opened PegFlow
  import opened PegJumps

  /** The jumps in code from slot `a` on stay there. */
  ghost predicate JumpsInside(c: Code, a: nat) {
    forall x :: a <= x < |c| && c[x].IJmp? ==> IsJump(c, x) && a <= Target(c, x) < |c|
  }

  /** Behind code that flows, a last instruction makes every label point into the code. */
  lemma LabelsInsideAppend(c: Code, x: Instr)
    requires LabelsIn(c) && !TakesLabel(x)
    ensures LabelsInside(c + [x])
  {
    var d := c + [x];
    forall y | 0 <= y < |d| ensures LabelInside(d, y) {
      if y < |c| { assert LabelIn(c, y); }
    }
  }

  lemma LabelsInsideConcat(u: Code, v: Code)
    requires LabelsInside(u) && LabelsInside(v)
    ensures LabelsInside(u + v)
  {
    var c := u + v;
    forall y | 0 <= y < |c| ensures LabelInside(c, y) {
      if y < |u| { assert LabelInside(u, y); } else { assert LabelInside(v, y - |u|); }
    }
  }

  lemma {:induction false} RulesInside(p: Tree, k: nat, r: nat)
    requires p.TGrammar? && r <= |p.rules| && WellFormed([], p)
    ensures LabelsInside(GenRules(p, k, r))
    decreases |p.rules| - r
  {
    hide LabelsInside, LabelsIn, Gen, GenRules;
    if r < |p.rules| {
      var c := Gen(p.rules, k, p.rules[r], false, NoTest, FULLSET);
      GenJumps(p.rules, k, p.rules[r], false, NoTest, FULLSET);
      LabelsInsideAppend(c, IRet);
      RulesInside(p, k, r + 1);
      LabelsInsideConcat(c + [IRet], GenRules(p, k, r + 1));
      UnfoldRules(p, k, r, 0);
    } else {
      NoRules(p, k);
      NothingInside();
    }
  }

  lemma NothingInside()
    ensures LabelsInside([])
  {
  }

  /** Code of which the calls before slot `x` have been corrected; `r` is what it is to become. */
  ghost predicate Correcting(b: Code, ps: seq<nat>, x: nat, r: Code) {
    && x <= |b| && |b| > 0 && b[|b| - 1].IRet?
    && NeatFrom(b, x) && KeysInRange(b, |ps|) && Positioned(b, ps)
    && JumpsInside(b, 0) && CorrectCalls(b, ps, x) == r
  }

  lemma CorrectingSkip(b: Code, ps: seq<nat>, x: nat, r: Code)
    requires Correcting(b, ps, x, r) && x < |b| && !b[x].IOpenCall?
    ensures Correcting(b, ps, x + SizeI(b[x]), r)
  {
    assert SlotNeat(b, x);
    assert CorrectCalls(b, ps, x) == CorrectCalls(b, ps, x + SizeI(b[x]));
    if b[x].ITestSet? { assert x + 2 < |b|; }
  }

  lemma CorrectingStep(b: Code, ps: seq<nat>, x: nat, r: Code)
    requires Correcting(b, ps, x, r) && x < |b| && b[x].IOpenCall?
    ensures x + 2 < |b| && b[x].key < |ps|
    ensures Correcting(CorrectOne(b, ps, x), ps, x + 2, r)
  {
    hide EndsInRet;
    assert SlotNeat(b, x);
    var c := CorrectOne(b, ps, x);
    CorrectOneKeeps(b, ps, x);
    assert CorrectCalls(b, ps, x) == CorrectCalls(c, ps, x + 2);
    forall y | 0 <= y < |c| && c[y].IJmp? ensures IsJump(c, y) && 0 <= Target(c, y) < |c| {
      if y != x {
        assert b[y].IJmp? && IsJump(b, y);
        assert y + 1 != x && y + 1 != x + 1;
      }
    }
  }

  /** The jumps of partly corrected code stop: they are jumps of the corrected code. */
  lemma CorrectingStops(b: Code, ps: seq<nat>, x: nat, r: Code, y: int)
    requires Correcting(b, ps, x, r) && Stops(r, y)
    ensures Stops(b, y)
  {
    CorrectCallsShape(b, ps, x);
    var n: nat :| StopsAfter(r, y, n);
    FewerJumps(b, r, y, n);
  }

  /** Behind other code, chains of jumps are the same. */
  lemma {:induction false} ShiftedChain(a: Code, b: Code, y: nat, n: nat)
    requires JumpsInside(b, 0) && y < |b|
    ensures FinalTarget(a + b, |a| + y, n) == |a| + FinalTarget(b, y, n)
    ensures 0 <= FinalTarget(b, y, n) < |b|
    decreases n
  {
    var c := a + b;
    assert c[|a| + y] == b[y];
    if b[y].IJmp? {
      assert IsJump(b, y);
      assert c[|a| + y + 1] == b[y + 1];
      if n > 0 { ShiftedChain(a, b, Target(b, y), n - 1); }
    }
  }

  lemma ShiftedJumps(a: Code, b: Code)
    requires JumpsInside(b, 0)
    ensures JumpsInside(a + b, |a|)
  {
    var c := a + b;
    forall x | |a| <= x < |c| && c[x].IJmp? ensures IsJump(c, x) && |a| <= Target(c, x) < |c| {
      assert b[x - |a|].IJmp? && IsJump(b, x - |a|);
      assert c[x + 1] == b[x - |a| + 1];
    }
  }

  /** A chain that has stopped shows whether it ends in a return. */
  lemma StoppedRet(b: Code, y: nat, n: nat)
    requires JumpsInside(b, 0) && y < |b| && StopsAfter(b, y, n)
    ensures var f := FinalTarget(b, y, n); 0 <= f < |b| && (EndsInRet(b, y) <==> b[f].IRet?)
  {
    ShiftedChain([], b, y, n);
    var f := FinalTarget(b, y, n);
    if b[f].IRet? { assert RetAfter(b, y, n); }
    if EndsInRet(b, y) {
      var m: nat :| RetAfter(b, y, m);
      if m <= n { StopsLater(b, y, m, n); } else { StopsLater(b, y, n, m); }
    }
  }

  /** All there is to know before correcting the calls of a grammar. */
  lemma GrammarReady(p: Tree, k: nat)
    requires p.TGrammar? && WellFormed([], p) && NotLeftRecursive(k, p)
    ensures var c := GenRules(p, k, 0);
            var ps := Positions(p, k, 0, 0);
            Correcting(c, ps, 0, CorrectCalls(c, ps, 0)) && Flows(CorrectCalls(c, ps, 0))
  {
    hide Gen, GenRules, Positions, CorrectCalls, Flows, Neat, KeysBelow, AllCorrected, LabelsInside, WellFormed, NotLeftRecursive, JumpsEnd;
    var c := GenRules(p, k, 0);
    var ps := Positions(p, k, 0, 0);
    RulesLinked(p, k);
    NotLeftJumps([], k, p);
    CorrectedJumps(p, k);
    RulesOk(p, k);
    RulesInside(p, k, 0);
    RulesLast(p, k, 0);
    NeatReady(c, |ps|);
  }

  lemma RulesOk(p: Tree, k: nat)
    requires p.TGrammar? && WellFormed([], p) && NotLeftRecursive(k, p)
    ensures |p.rules| > 0
    ensures forall q :: 0 <= q < |p.rules| ==> WellFormed(p.rules, p.rules[q]) && NotLeftRecursive(k, p.rules[q])
  {
  }

  lemma NeatReady(c: Code, n: nat)
    requires Neat(c) && KeysBelow(c, n) && LabelsInside(c)
    ensures NeatFrom(c, 0) && KeysInRange(c, n) && JumpsInside(c, 0)
  {
    forall x | 0 <= x < |c| ensures c[x].IJmp? ==> IsJump(c, x) && Target(c, x) < |c| { assert LabelInside(c, x); }
    forall x | 0 <= x < |c| && c[x].IOpenCall? ensures c[x].key < n { assert c[x] in c; }
  }

  lemma {:induction false} RulesLast(p: Tree, k: nat, r: nat)
    requires p.TGrammar? && r < |p.rules|
    ensures var c := GenRules(p, k, r); |c| > 0 && c[|c| - 1].IRet?
    decreases |p.rules| - r
  {
    hide Gen, GenRules;
    UnfoldRules(p, k, r, 0);
    if r + 1 < |p.rules| { RulesLast(p, k, r + 1); } else { NoRules(p, k); }
  }
}
