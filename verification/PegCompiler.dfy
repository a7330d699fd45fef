/** The compiler as it works: a state that code is appended to and patched in. */
module PegCompiler {
  import opened PegTree
  import opened Seqs
  import opened PegAnalysis
  import opened PegCode
  import opened PegLink
  import opened PegMachine
  import opened PegFlow
  import opened PegJumps
  import opened PegPatch
  import opened PegCalls
  import opened PegPeephole
  import opened PegCaptures
  import PegCorrect

  class CompileState {
    var code: Code

    constructor ()
      ensures code == []
    {
      code := [];
    }

    method AddInstruction(x: Instr) returns (i: int)
      modifies this
      ensures code == old(code) + [x] && i == |old(code)|
    {
      i := |code|;
      code := code + [x];
    }

    /** Add an instruction with space for an offset. */
    method AddOffsetInst(op: Instr) returns (i: int)
      modifies this
      ensures code == old(code) + [op, Offset(0)] && i == |old(code)|
    {
      i := AddInstruction(op);
      var _ := AddInstruction(Offset(0));
    }

    /** Make an instruction jump to `target`; nothing to do for none. */
    method JumpToThere(instruction: int, target: int)
      requires instruction + 1 < |code|
      modifies this
      ensures code == SetLabel(old(code), instruction, target)
    {
      if instruction >= 0 {
        code := code[instruction + 1 := Offset(target - instruction)];
      }
    }

    method JumpToHere(instruction: int)
      requires instruction + 1 < |code| || instruction < 0
      modifies this
      ensures code == CloseLabel(old(code), instruction)
    {
      if instruction >= 0 {
        JumpToThere(instruction, |code|);
      }
    }

    method CodeChar(c: byte, tt: int)
      requires ValidTest(code, tt)
      modifies this
      ensures code == old(code) + CharCode(c, TestAt(old(code), tt))
    {
      if tt >= 0 && code[tt] == ITestChar(c) {
        var _ := AddInstruction(IAny);
      } else {
        var _ := AddInstruction(IChar(c));
      }
    }

    method AddCharset(cs: Charset)
      modifies this
      ensures code == old(code) + [Buffer(cs)]
    {
      code := code + [Buffer(cs)];
    }

    method CodeCharset(cs: Charset, tt: int)
      requires ValidTest(code, tt)
      modifies this
      ensures code == old(code) + CharsetCode(cs, TestAt(old(code), tt))
    {
      match CharsetType(cs)
      case Single(c) => CodeChar(c, tt);
      case General =>
        if tt >= 0 && code[tt].ITestSet? && cs == code[tt + 2].cs {
          var _ := AddInstruction(IAny);
        } else {
          var _ := AddInstruction(ISet);
          AddCharset(cs);
        }
      case Empty => var _ := AddInstruction(IFail);
      case Everything => var _ := AddInstruction(IAny);
    }

    method CodeTestSet(cs: Charset, empty: bool) returns (i: int)
      modifies this
      ensures code == old(code) + TestCode(TestOf(cs, empty), 0)
      ensures i == if empty then NOINST else |old(code)|
      ensures ValidTest(code, i) && TestAt(code, i) == TestOf(cs, empty)
    {
      if empty {
        i := NOINST;
      } else {
        match CharsetType(cs) {
          case Empty => i := AddOffsetInst(IJmp);
          case Everything => i := AddOffsetInst(ITestAny);
          case Single(c) => i := AddOffsetInst(ITestChar(c));
          case General =>
            i := AddOffsetInst(ITestSet);
            AddCharset(cs);
        }
        TestAtNew(old(code), TestOf(cs, empty), 0);
      }
    }

    /** The main function: append the code of `p`. */
    method CodeGen(g: Rules, k: nat, p: Tree, opt: bool, tt: int, fl: Charset)
      requires Codable(g, k, p) && ValidTest(code, tt)
      modifies this
      ensures code == old(code) + CodeOf(g, k, p, opt, TestAt(old(code), tt), fl)
      decreases p, 3
    {
      UnfoldGen(g, k, p, opt, TestAt(code, tt), fl);
      CodableParts(g, k, p);
      assert NOINST < 0;
      hide *;
      AddNothing(code);
      match p
      case TChar(c) => CodeChar(c, tt);
      case TAny => var _ := AddInstruction(IAny);
      case TSet(cs) => CodeCharset(cs, tt);
      case TTrue =>
      case TFalse => var _ := AddInstruction(IFail);
      case TChoice(p1, p2) => CodeChoice(g, k, p1, p2, opt, TestAt(code, tt), fl);
      case TRep(q) => CodeRep(g, k, q, opt, TestAt(code, tt), fl);
      case TBehind(n, q) => CodeBehind(g, k, n, q, opt, TestAt(code, tt), fl);
      case TNot(q) => CodeNot(g, k, q, opt, TestAt(code, tt), fl);
      case TAnd(q) => CodeAnd(g, k, q, opt, tt, fl);
      case TGrammar(rs) => CodeGrammar(k, p);
      case TCall(r) => CodeCall(r);
      case TSeq(p1, p2) =>
        ghost var a, t := code, TestAt(code, tt);
        var tt2 := CodeSeq1(g, k, p1, p2, tt, fl);
        CodeGen(g, k, p2, opt, tt2, fl);
        Assoc(a, CodeOf(g, k, p1, false, t, FollowOf(g, k, p1, p2, fl)), CodeOf(g, k, p2, opt, SecondTest(g, p1, t), fl));
    }

    /** Code the first part of a sequence; the result is the test for the second. */
    method CodeSeq1(g: Rules, k: nat, p1: Tree, p2: Tree, tt: int, fl: Charset) returns (tt2: int)
      requires Codable(g, k, p1) && ValidTest(code, tt)
      modifies this
      ensures var t := TestAt(old(code), tt);
              && code == old(code) + CodeOf(g, k, p1, false, t, FollowOf(g, k, p1, p2, fl))
              && ValidTest(code, tt2) && TestAt(code, tt2) == SecondTest(g, p1, t)
      decreases p1, 4
    {
      if NeedFollow(p1) {
        CodeGen(g, k, p1, false, tt, GetFirst(g, k, p2, fl).cs);
      } else {
        CodeGen(g, k, p1, false, tt, FULLSET);
      }
      TestAtLater(old(code), CodeOf(g, k, p1, false, TestAt(old(code), tt), FollowOf(g, k, p1, p2, fl)), tt);
      tt2 := if FixedLen(g, p1) != 0 then NOINST else tt;
    }

    method CodeChoice(g: Rules, k: nat, p1: Tree, p2: Tree, opt: bool, ghost t0: Test, fl: Charset)
      requires Codable(g, k, p1) && Codable(g, k, p2)
      modifies this
      ensures code == old(code) + CodeOf(g, k, TChoice(p1, p2), opt, t0, fl)
      decreases TChoice(p1, p2), 2
    {
      hide CodeOf, ChoiceByTest, ChoiceWithEntry, GetFirst, HeadFail, TestOf, Codable, SetLabel, TestAt;
      UnfoldGenChoice(g, k, p1, p2, opt, t0, fl);
      var emptyp2 := p2.TTrue?;
      var f1 := GetFirst(g, k, p1, FULLSET);
      if TestDecides(g, k, p1, p2, fl) {
        CodeChoiceByTest(g, k, p1, p2, f1.cs, opt, fl);
      } else if opt && emptyp2 {
        ghost var a := code;
        var pc := AddOffsetInst(IPartialCommit);
        JumpToHere(pc);
        LabelSet(a, IPartialCommit);
        AtNowhere(code);
        CodeGen(g, k, p1, true, NOINST, FULLSET);
        Assoc(a, [IPartialCommit, Offset(2)], CodeOf(g, k, p1, true, NoTest, FULLSET));
      } else {
        CodeChoiceWithEntry(g, k, p1, p2, f1, opt, fl);
      }
    }

    /** A choice that the next character settles. */
    method CodeChoiceByTest(g: Rules, k: nat, p1: Tree, p2: Tree, cs1: Charset, opt: bool, fl: Charset)
      requires Codable(g, k, p1) && Codable(g, k, p2)
      modifies this
      ensures var t := TestOf(cs1, false);
              code == old(code) + ChoiceByTest(
                t, CodeOf(g, k, p1, false, t, fl), CodeOf(g, k, p2, opt, NoTest, fl), p2.TTrue?)
      decreases TChoice(p1, p2), 1
    {
      var emptyp2 := p2.TTrue?;
      ghost var t := TestOf(cs1, false);
      ghost var c1, c2 := CodeOf(g, k, p1, false, t, fl), CodeOf(g, k, p2, opt, NoTest, fl);
      assert emptyp2 ==> c2 == [];
      assert NOINST < 0;
      hide *;
      ghost var a := code;
      var test := CodeTestSet(cs1, false);
      CodeGen(g, k, p1, false, test, fl);
      ghost var b := code;
      var jmp := NOINST;
      if !emptyp2 {
        jmp := AddOffsetInst(IJmp);
      }
      JumpToHere(test);
      ghost var c := code;
      AtNowhere(code);
      CodeGen(g, k, p2, opt, NOINST, fl);
      JumpToHere(jmp);
      AddNothing(b);
      ChoiceByTestPatched(a, t, c1, c2, emptyp2, jmp, b, c, code);
    }

    /** A choice that may have to come back to the second alternative. */
    method CodeChoiceWithEntry(g: Rules, k: nat, p1: Tree, p2: Tree, f1: First, opt: bool, fl: Charset)
      requires Codable(g, k, p1) && Codable(g, k, p2)
      modifies this
      ensures var t := TestOf(f1.cs, f1.empty);
              code == old(code) + ChoiceWithEntry(
                t, CodeOf(g, k, p1, p2.TTrue?, t, FULLSET), CodeOf(g, k, p2, opt, NoTest, fl))
      decreases TChoice(p1, p2), 1
    {
      var emptyp2 := p2.TTrue?;
      ghost var t := TestOf(f1.cs, f1.empty);
      ghost var c1, c2 := CodeOf(g, k, p1, emptyp2, t, FULLSET), CodeOf(g, k, p2, opt, NoTest, fl);
      assert NOINST < 0;
      hide *;
      ghost var a := code;
      var test, pchoice := CodeTestAndEntry(f1);
      CodeGen(g, k, p1, emptyp2, test, FULLSET);
      var pcommit := AddOffsetInst(ICommit);
      ghost var b := code;
      JumpToHere(pchoice);
      ghost var e := code;
      JumpToHere(test);
      ghost var c := code;
      AtNowhere(code);
      CodeGen(g, k, p2, opt, NOINST, fl);
      JumpToHere(pcommit);
      ChoiceWithEntryPatched(a, t, c1, c2, test, b, c, code);
    }

    /** A test followed by a backtrack entry, both labels still open. */
    method CodeTestAndEntry(f: First) returns (test: int, pchoice: int)
      modifies this
      ensures var t := TestOf(f.cs, f.empty);
              && code == old(code) + TestCode(t, 0) + [IChoice, Offset(0)]
              && test == (if f.empty then NOINST else |old(code)|)
              && pchoice == |old(code)| + TestSize(t)
              && ValidTest(code, test) && TestAt(code, test) == t
    {
      hide *;
      test := CodeTestSet(f.cs, f.empty);
      ghost var b := code;
      pchoice := AddOffsetInst(IChoice);
      TestAtLater(b, [IChoice, Offset(0)], test);
    }

    method CodeRep(g: Rules, k: nat, q: Tree, opt: bool, ghost t0: Test, fl: Charset)
      requires Codable(g, k, q)
      modifies this
      ensures code == old(code) + CodeOf(g, k, TRep(q), opt, t0, fl)
      decreases TRep(q), 2
    {
      hide *;
      UnfoldGenRep(g, k, q, opt, t0, fl);
      ghost var a := code;
      if IsCharPattern(q) {
        var _ := AddInstruction(ISpan);
        AddCharset(ToCharset(q));
        Assoc(a, [ISpan], [Buffer(ToCharset(q))]);
      } else {
        var f := GetFirst(g, k, q, FULLSET);
        if TestDecidesLoop(g, k, q, fl) {
          var test := CodeTestSet(f.cs, false);
          ghost var t := TestOf(f.cs, false);
          CodeGen(g, k, q, false, test, FULLSET);
          var jmp := AddOffsetInst(IJmp);
          ghost var b := code;
          JumpToHere(test);
          JumpToThere(jmp, test);
          LoopByTestPatched(a, t, CodeOf(g, k, q, false, t, FULLSET), b, code);
        } else {
          CodeLoopWithEntry(g, k, q, f, opt);
        }
      }
    }

    /** A repetition that needs a backtrack entry. */
    method CodeLoopWithEntry(g: Rules, k: nat, q: Tree, f: First, opt: bool)
      requires Codable(g, k, q)
      modifies this
      ensures code == old(code)
                      + LoopWithEntry(TestOf(f.cs, f.empty), CodeOf(g, k, q, false, NoTest, FULLSET), opt)
      decreases TRep(q), 1
    {
      assert NOINST < 0;
      hide *;
      ghost var a := code;
      ghost var t := TestOf(f.cs, f.empty);
      ghost var c := CodeOf(g, k, q, false, NoTest, FULLSET);
      var test, pchoice := CodeTestAndLoop(f, opt);
      ghost var e := code;
      var l2 := |code|;
      AtNowhere(code);
      CodeGen(g, k, q, false, NOINST, FULLSET);
      ghost var d := code;
      assert d == e + c;
      var commit := AddOffsetInst(IPartialCommit);
      ghost var b := code;
      assert commit == |d| && |b| == |d| + 2;
      CloseLoop(commit, l2, pchoice, test);
      LoopWithEntryPatched(a, t, c, opt, test, pchoice, b, code);
    }

    /** The start of such a repetition: the test and the entry. */
    method CodeTestAndLoop(f: First, opt: bool) returns (test: int, pchoice: int)
      modifies this
      ensures var t := TestOf(f.cs, f.empty);
              && code == old(code) + TestCode(t, 0) + LoopEntry(opt)
              && |code| == |old(code)| + TestSize(t) + 2
              && test == (if t.NoTest? then NOINST else |old(code)|)
              && if opt then pchoice < 0 else pchoice == |old(code)| + TestSize(t)
    {
      test := CodeTestSet(f.cs, f.empty);
      pchoice := CodeLoopEntry(opt);
    }

    /** Set the labels of a loop: back to its body, and past it. */
    method CloseLoop(commit: int, l2: int, pchoice: int, test: int)
      requires 0 <= commit && commit + 1 < |code| && pchoice + 1 < |code| && test + 1 < |code|
      modifies this
      ensures code == CloseLabel(CloseLabel(SetLabel(old(code), commit, l2), pchoice), test)
    {
      JumpToThere(commit, l2);
      JumpToHere(pchoice);
      JumpToHere(test);
    }

    /** Reuse the entry there is, or make one whose label is still open. */
    method CodeLoopEntry(opt: bool) returns (pchoice: int)
      modifies this
      ensures code == old(code) + LoopEntry(opt)
      ensures if opt then pchoice < 0 else pchoice == |old(code)|
    {
      pchoice := NOINST;
      if opt {
        var pc := AddOffsetInst(IPartialCommit);
        JumpToHere(pc);
        LabelSet(old(code), IPartialCommit);
      } else {
        pchoice := AddOffsetInst(IChoice);
      }
    }

    method CodeNot(g: Rules, k: nat, q: Tree, opt: bool, ghost t0: Test, fl: Charset)
      requires Codable(g, k, TNot(q))
      modifies this
      ensures code == old(code) + CodeOf(g, k, TNot(q), opt, t0, fl)
      decreases TNot(q), 2
    {
      assert NOINST < 0;
      hide *;
      CodableParts(g, k, TNot(q));
      UnfoldGenNot(g, k, q, opt, t0, fl);
      ghost var a := code;
      var f := GetFirst(g, k, q, FULLSET);
      ghost var t := TestOf(f.cs, f.empty);
      var test := CodeTestSet(f.cs, f.empty);
      if HeadFail(g, k, q) {
        var _ := AddInstruction(IFail);
        ghost var b := code;
        JumpToHere(test);
        NotByTestPatched(a, t, test, b, code);
      } else {
        var pchoice := AddOffsetInst(IChoice);
        AtNowhere(code);
        CodeGen(g, k, q, false, NOINST, FULLSET);
        var _ := AddInstruction(IFailTwice);
        ghost var b := code;
        JumpToHere(pchoice);
        JumpToHere(test);
        NotWithEntryPatched(a, t, CodeOf(g, k, q, false, NoTest, FULLSET), test, b, code);
      }
    }

    method CodeAnd(g: Rules, k: nat, q: Tree, opt: bool, tt: int, fl: Charset)
      requires Codable(g, k, TAnd(q)) && ValidTest(code, tt)
      modifies this
      ensures code == old(code) + CodeOf(g, k, TAnd(q), opt, TestAt(old(code), tt), fl)
      decreases TAnd(q), 2
    {
      hide CodeOf, AndWithEntry, FixedLenX, Codable, Askable, SetLabel;
      CodableParts(g, k, TAnd(q));
      UnfoldGenAnd(g, k, q, opt, TestAt(code, tt), fl);
      var n := FixedLen(g, q);
      ghost var a := code;
      ghost var c := CodeOf(g, k, q, false, TestAt(a, tt), FULLSET);
      var stepsBack := false;
      if 0 <= n <= MAXBEHIND {
        CodableWellFormed(g, k, q);
        var has := AskCaptures(g, q);
        stepsBack := !has;
      }
      if stepsBack {
        CodeGen(g, k, q, false, tt, FULLSET);
        if n > 0 {
          var _ := AddInstruction(IBehind(n));
        }
        Assoc(a, c, BehindCode(n));
        AddNothing(a + c);
      } else {
        var pchoice := AddOffsetInst(IChoice);
        TestAtLater(a, [IChoice, Offset(0)], tt);
        CodeGen(g, k, q, false, tt, FULLSET);
        var pcommit := AddOffsetInst(IBackCommit);
        ghost var b := code;
        JumpToHere(pchoice);
        var _ := AddInstruction(IFail);
        JumpToHere(pcommit);
        AndWithEntryPatched(a, c, b, code);
      }
    }

    method CodeBehind(g: Rules, k: nat, n: int, q: Tree, opt: bool, ghost t0: Test, fl: Charset)
      requires Codable(g, k, q)
      modifies this
      ensures code == old(code) + CodeOf(g, k, TBehind(n, q), opt, t0, fl)
      decreases TBehind(n, q), 2
    {
      hide CodeOf, FixedLenX, Codable;
      UnfoldGenBehind(g, k, n, q, opt, t0, fl);
      ghost var a := code;
      if n > 0 {
        var _ := AddInstruction(IBehind(n));
      } else {
        AddNothing(a);
      }
      CodeGen(g, k, q, false, NOINST, FULLSET);
      Assoc(a, BehindCode(n), CodeOf(g, k, q, false, NoTest, FULLSET));
    }

    /** A grammar: its rules one after the other, entered by a call of the first and left by a jump behind the last. */
    method CodeGrammar(k: nat, p: Tree)
      requires p.TGrammar? && Codable([], k, p)
      modifies this
      ensures code == old(code) + CodeOf([], k, p, false, NoTest, FULLSET)
      decreases p, 2
    {
      ghost var a, body, ps := code, GenRules(p, k, 0), Positions(p, k, 0, 0);
      UnfoldGrammar(k, p);
      hide *;
      var firstcall := AddOffsetInst(ICall);
      var jumptoend := AddOffsetInst(IJmp);
      var start := |code|;
      JumpToHere(firstcall);
      HeadPatched(a, code);
      var positions := CodeRules(k, p, start);
      JumpToHere(jumptoend);
      EndPatched(a, body, code);
      CorrectCallsFrom(positions, start, a + GrammarHead(|body|), body, ps, CorrectCalls(body, ps, 0));
      Assoc(a, GrammarHead(|body|), CorrectCalls(body, ps, 0));
    }

    /** Code all rules, keeping where they start. */
    method CodeRules(k: nat, p: Tree, start: nat) returns (positions: seq<nat>)
      requires p.TGrammar? && Codable([], k, p) && start == |code|
      modifies this
      ensures code == old(code) + GenRules(p, k, 0)
      ensures MovedBy(positions, start, Positions(p, k, 0, 0))
      decreases p, 1
    {
      RulesOk(p, k);
      hide *;
      positions := [];
      var r := 0;
      ghost var done: Code, at: seq<nat> := [], [];
      AddNothing(code);
      RulesStart(p, k);
      while r < |p.rules|
        invariant r <= |p.rules| && code == old(code) + done
        invariant RulesSoFar(p, k, r, done, at) && MovedBy(positions, start, at)
      {
        positions := positions + [|code|];
        ghost var c := CodeOf(p.rules, k, p.rules[r], false, NoTest, FULLSET);
        AtNowhere(code);
        CodeGen(p.rules, k, p.rules[r], false, NOINST, FULLSET);
        var _ := AddInstruction(IRet);
        Assoc4(old(code), done, c, [IRet]);
        RulesNext(p, k, r, done, at);
        MovedNext(positions, start, at, |done|);
        done, at := done + c + [IRet], at + [|done|];
        r := r + 1;
      }
      RulesEnd(p, k, done, at);
    }

    /** Follow jumps to the end. */
    method FinalTargetOf(i: int, ghost from: nat, ghost n: nat) returns (r: int)
      requires from <= i < |code| && JumpsInside(code, from) && StopsAfter(code, i, n)
      ensures r == FinalTarget(code, i, n) && from <= r < |code| && !code[r].IJmp?
    {
      r := i;
      ghost var m := n;
      while code[r].IJmp?
        invariant from <= r < |code|
        invariant StopsAfter(code, r, m) && FinalTarget(code, r, m) == FinalTarget(code, i, n)
        decreases m
      {
        assert IsJump(code, r);
        r := Target(code, r);
        m := m - 1;
      }
    }

    /** Turn the open calls of the code from `from` on into calls or jumps. */
    method CorrectCallsFrom(
        positions: seq<nat>, from: nat, ghost a: Code, ghost body: Code, ghost ps: seq<nat>, ghost result: Code)
      requires code == a + body && |a| == from && MovedBy(positions, from, ps)
      requires Correcting(body, ps, 0, result) && Flows(result)
      modifies this
      ensures code == a + result
    {
      ghost var b := body;
      hide Correcting, Flows, JumpsInside, StopsAfter, EndsInRet, FinalTarget, CorrectOne, SetLabel, Target;
      var i := from;
      while i < |code|
        invariant from <= i && code == a + b
        invariant Correcting(b, ps, i - from, result)
        decreases |code| - i
      {
        ghost var x: nat := i - from;
        if code[i].IOpenCall? {
          CorrectingStep(b, ps, x, result);
          var rule := positions[code[i].key];
          ghost var n := CallChain(a, b, ps, x, result);
          var ft := FinalTargetOf(i + 2, from, n);
          var call := if code[ft].IRet? then IJmp else ICall;
          code := code[i := call];
          JumpToThere(i, rule);
          CallPatched(a, b, ps, x, call, rule, code);
          b := CorrectOne(b, ps, x);
          i := i + 2;
        } else {
          CorrectingSkip(b, ps, x, result);
          i := i + SizeI(code[i]);
        }
      }
      CorrectingEnd(b, ps, i - from, result);
    }

    /** A call, to be corrected later. */
    method CodeCall(r: nat)
      modifies this
      ensures code == old(code) + [IOpenCall(RuleKey(r)), Hole]
    {
      var _ := AddInstruction(IOpenCall(RuleKey(r)));
      var _ := AddInstruction(Hole);
    }

    /** Where the label at `i` leads in the end. */
    method FinalLabel(i: nat, ghost p: Source) returns (r: int)
      requires p.Ok() && Sim(p, code) && i < |code| && TakesLabel(code[i])
      ensures HasLabel(code, i) && 0 <= r < |code| && !code[r].IJmp?
      ensures p.Final(r) == p.Final(Target(code, i)) && (code[i].IJmp? ==> p.Far(r) < p.Far(i))
    {
      SimLabel(p, code, i);
      SimInside(p, code);
      ghost var n := ChainSim(p, code, Target(code, i));
      SimFinal(p, code, Target(code, i), n);
      assert SlotSim(p, code, i);
      r := FinalTargetOf(Target(code, i), 0, n);
    }

    /** Optimize jumps: every label leads to its final destination, and a jump to an instruction
        that leaves for good becomes that instruction.  The program keeps its meaning. */
    method Peephole() returns (ghost n: nat)
      requires Good(code) && Flows(code)
      modifies this
      ensures var p := Source(old(code), n); p.Ok() && Sim(p, code)
      ensures ThreadedTo(code, |code|)
    {
      n := FlowsCalm(code, |code|);
      ghost var p := Source(code, n);
      SimRefl(p);
      hide *;
      var i := 0;
      while i < |code|
        invariant i >= 0 && Sim(p, code) && ThreadedTo(code, i)
        decreases |code| - i
      {
        var redo := true;
        while redo
          invariant i < |code| && Sim(p, code) && ThreadedTo(code, i)
          invariant !redo ==> ThreadedTo(code, i + 1)
          decreases redo, code[i].IJmp?
        {
          redo := OptimizeAt(i, p);
        }
        SkipThreaded(p, code, i);
        i := i + SizeI(code[i]);
      }
    }

    /** Optimize the instruction at `i`; the result says that it has to be looked at again. */
    method OptimizeAt(i: nat, ghost p: Source) returns (redo: bool)
      requires p.Ok() && i < |code| && Sim(p, code) && ThreadedTo(code, i)
      modifies this
      ensures |code| == |old(code)| && Sim(p, code) && ThreadedTo(code, i)
      ensures if redo then old(code)[i].IJmp? && !code[i].IJmp? else ThreadedTo(code, i + 1)
    {
      redo := false;
      if code[i].IJmp? {
        assert SlotSim(p, code, i);
        var ft := FinalLabel(i, p);
        if code[ft].IRet? || code[ft].IFail? || code[ft].IFailTwice? || code[ft].IEnd? {
          CopySim(p, code, i, ft, IAny);
          CopyThreaded(p, code, i, ft, IAny);
          code := code[i := code[ft]][i + 1 := IAny];
        } else if code[ft].ICommit? || code[ft].IPartialCommit? || code[ft].IBackCommit? {
          var fft := FinalLabel(ft, p);
          CopySim(p, code, i, ft, Offset(fft - i));
          CopyThreaded(p, code, i, ft, Offset(fft - i));
          code := code[i := code[ft]];
          JumpToThere(i, fft);
          redo := true;
        } else {
          RetargetSim(p, code, i, ft);
          RetargetThreaded(p, code, i, ft);
          JumpToThere(i, ft);
        }
      } else if TakesLabel(code[i]) {
        var l := FinalLabel(i, p);
        RetargetSim(p, code, i, l);
        RetargetThreaded(p, code, i, l);
        JumpToThere(i, l);
      }
    }

    /** Compile a pattern.  Whenever matching the pattern has an answer, on any subject and from any
        position, the machine running the code stops with that answer. */
    method Compile(k: nat, p: Tree)
      requires code == [] && WellFormed([], p) && NotLeftRecursive(k, p) && AsksEnd([], k, p)
      modifies this
      ensures forall s: seq<byte>, i: nat, n: nat | i <= |s| && !Eval([], p, s, i, n).Diverge? ::
                Answers(code, s, i, Eval([], p, s, i, n))
      ensures ThreadedTo(code, |code|)
    {
      assert Codable([], k, p);
      hide *;
      AtNowhere(code);
      CodeGen([], k, p, false, NOINST, FULLSET);
      var _ := AddInstruction(IEnd);
      ghost var c := code;
      CompiledReady(k, p, c);
      ghost var m := Peephole();
      forall s: seq<byte>, i: nat, n: nat | i <= |s| && !Eval([], p, s, i, n).Diverge?
        ensures Answers(code, s, i, Eval([], p, s, i, n))
      {
        PegCorrect.CompiledCorrect(k, p, s, i, n);
        SimAnswers(Source(c, m), code, s, i, Eval([], p, s, i, n));
      }
    }
  }

  /** The code of a whole pattern can be threaded. */
  lemma CompiledReady(k: nat, p: Tree, c: Code)
    requires WellFormed([], p) && NotLeftRecursive(k, p)
    requires c == [] + CodeOf([], k, p, false, NoTest, FULLSET) + [IEnd]
    ensures c == PegCorrect.Compiled(k, p) && Good(c) && Flows(c)
  {
    assert CodeOf([], k, p, false, NoTest, FULLSET) == Gen([], k, p, false, NoTest, FULLSET);
    hide CodeOf, WellFormed, NotLeftRecursive, Flows, Neat;
    var d := Gen([], k, p, false, NoTest, FULLSET);
    assert [] + d == d;
    GenFlows([], k, p, false, NoTest, FULLSET);
    GenNeat([], k, p, false, NoTest, FULLSET);
    EndReady(d);
  }

  lemma EndReady(d: Code)
    requires Neat(d) && Flows(d)
    ensures Good(d + [IEnd]) && Flows(d + [IEnd])
  {
    hide Flows, Neat, LabelsIn, LabelsInside;
    NeatOne(IEnd);
    NeatConcat(d, [IEnd]);
    FlowsLabels(d);
    LabelsInsideAppend(d, IEnd);
    FlowsOne(IEnd);
    FlowsConcat(d, [IEnd]);
  }

  // ---------------------------------------------------------------- grammars

  /** The positions `at`, counted from the start of the rules, are `positions` in the whole code. */
  ghost predicate MovedBy(positions: seq<nat>, start: nat, at: seq<nat>) {
    |positions| == |at| && forall q :: 0 <= q < |at| ==> positions[q] == start + at[q]
  }

  lemma MovedNext(positions: seq<nat>, start: nat, at: seq<nat>, q: nat)
    requires positions != [] && MovedBy(positions[..|positions| - 1], start, at)
    requires positions[|positions| - 1] == start + q
    ensures MovedBy(positions, start, at + [q])
  {
  }

  /** The first `r` rules have been coded. */
  ghost predicate RulesSoFar(p: Tree, k: nat, r: nat, done: Code, at: seq<nat>)
    requires p.TGrammar? && r <= |p.rules|
  {
    && done + GenRules(p, k, r) == GenRules(p, k, 0)
    && at + Positions(p, k, r, |done|) == Positions(p, k, 0, 0)
  }

  lemma RulesStart(p: Tree, k: nat)
    requires p.TGrammar?
    ensures RulesSoFar(p, k, 0, [], []) && MovedBy([], 0, [])
    ensures forall start: nat :: MovedBy([], start, [])
  {
    hide GenRules, Positions;
    assert [] + GenRules(p, k, 0) == GenRules(p, k, 0);
    assert [] + Positions(p, k, 0, 0) == Positions(p, k, 0, 0);
  }

  lemma RulesNext(p: Tree, k: nat, r: nat, done: Code, at: seq<nat>)
    requires p.TGrammar? && r < |p.rules| && RulesSoFar(p, k, r, done, at)
    ensures var c := CodeOf(p.rules, k, p.rules[r], false, NoTest, FULLSET);
            RulesSoFar(p, k, r + 1, done + c + [IRet], at + [|done|])
  {
    UnfoldRules(p, k, r, |done|);
    var c := CodeOf(p.rules, k, p.rules[r], false, NoTest, FULLSET);
    assert c == Gen(p.rules, k, p.rules[r], false, NoTest, FULLSET);
    hide CodeOf, Gen, GenRules, Positions;
    Assoc(done, c, [IRet]);
    Assoc(done, c + [IRet], GenRules(p, k, r + 1));
    assert at + ([|done|] + Positions(p, k, r + 1, |done| + |c| + 1))
        == at + [|done|] + Positions(p, k, r + 1, |done| + |c| + 1);
  }

  lemma RulesEnd(p: Tree, k: nat, done: Code, at: seq<nat>)
    requires p.TGrammar? && RulesSoFar(p, k, |p.rules|, done, at)
    ensures done == GenRules(p, k, 0) && at == Positions(p, k, 0, 0)
  {
  }

  lemma UnfoldGrammar(k: nat, p: Tree)
    requires p.TGrammar? && WellFormed([], p) && NotLeftRecursive(k, p)
    ensures var body := GenRules(p, k, 0);
            var ps := Positions(p, k, 0, 0);
            && CodeOf([], k, p, false, NoTest, FULLSET) == GrammarHead(|body|) + CorrectCalls(body, ps, 0)
            && Correcting(body, ps, 0, CorrectCalls(body, ps, 0)) && Flows(CorrectCalls(body, ps, 0))
  {
    GrammarReady(p, k);
  }

  lemma HeadPatched(a: Code, r: Code)
    requires var b := a + [ICall, Offset(0)] + [IJmp, Offset(0)]; r == CloseLabel(b, |a|)
    ensures r == a + [ICall, Offset(4)] + [IJmp, Offset(0)]
  {
    LabelPatched(a, ICall, [IJmp, Offset(0)], 0, 4);
  }

  lemma EndPatched(a: Code, body: Code, r: Code)
    requires var b := a + [ICall, Offset(4)] + [IJmp, Offset(0)] + body; r == CloseLabel(b, |a| + 2)
    ensures r == a + GrammarHead(|body|) + body
  {
    LabelPatched(a + [ICall, Offset(4)], IJmp, body, 0, 2 + |body|);
    Assoc(a, [ICall, Offset(4)], [IJmp, Offset(2 + |body|)]);
    assert [ICall, Offset(4)] + [IJmp, Offset(2 + |body|)] == GrammarHead(|body|);
  }

  /** How far the jumps behind an open call go, and whether they end in a return. */
  lemma CallChain(a: Code, b: Code, ps: seq<nat>, x: nat, r: Code) returns (n: nat)
    requires Correcting(b, ps, x, r) && Flows(r) && x + 2 < |b|
    ensures var c := a + b;
            && JumpsInside(c, |a|) && StopsAfter(c, |a| + x + 2, n)
            && |a| <= FinalTarget(c, |a| + x + 2, n) < |c|
            && (EndsInRet(b, x + 2) <==> c[FinalTarget(c, |a| + x + 2, n)].IRet?)
  {
    assert |r| == |b|;
    assert Stops(r, x + 2);
    CorrectingStops(b, ps, x, r, x + 2);
    n :| StopsAfter(b, x + 2, n);
    ShiftedJumps(a, b);
    ShiftedChain(a, b, x + 2, n);
    StoppedRet(b, x + 2, n);
  }

  lemma CallPatched(a: Code, b: Code, ps: seq<nat>, x: nat, call: Instr, rule: nat, r: Code)
    requires x + 1 < |b| && b[x].IOpenCall? && b[x].key < |ps| && rule == |a| + ps[b[x].key]
    requires call == if EndsInRet(b, x + 2) then IJmp else ICall
    requires r == SetLabel((a + b)[|a| + x := call], |a| + x, rule)
    ensures r == a + CorrectOne(b, ps, x)
  {
  }

  lemma CorrectingEnd(b: Code, ps: seq<nat>, x: nat, r: Code)
    requires Correcting(b, ps, x, r) && x >= |b|
    ensures b == r
  {
  }
}
