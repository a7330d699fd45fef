/** Generated code does what its pattern means: run on any subject, the machine gives the answer
    of `PegTree.Eval`, whatever optimizations the generator chose. */
module PegCorrect {
  import opened PegTree
  import opened PegAnalysis
  import opened PegCode
  import opened PegMachine
  import opened PegLink

  /** A program with the rules of one grammar in it: rule `r` starts at slot `at[r]`. */
  datatype Program = Program(g: Rules, k: nat, code: Code, at: seq<int>, s: seq<byte>) {

    ghost predicate Joined(c: Config, d: Config) { Joins(code, s, c, d) }

    /** Slot `q` holds `x`; an open call has become a call of its rule, or a jump to it when only
        a return was left. */
    ghost predicate Fits(q: int, x: Instr) {
      0 <= q < |code| &&
      match x
      case IOpenCall(r) =>
        && r < |at|
        && HasLabel(code, q) && Target(code, q) == at[r]
        && (code[q].ICall? || (code[q].IJmp? && EndsInRet(code, q + 2)))
      case Hole => true
      case _ => code[q] == x
    }

    ghost predicate Holds(a: int, c: Code) {
      0 <= a && forall j :: 0 <= j < |c| ==> Fits(a + j, c[j])
    }

    ghost predicate Linked() {
      && |at| == |g|
      && forall r :: 0 <= r < |g| ==>
          && WellFormed(g, g[r])
          && Holds(at[r], Gen(g, k, g[r], false, NoTest, FULLSET) + [IRet])
    }
  }

  /** The stack with another position in its top entry. */
  function Retop(st: Stack, pos: nat): Stack
    requires st != []
  {
    Pop(st) + [Back(pos, Top(st).pc)]
  }

  /** The code gets to `b` at `pos` with no more than the position of the top entry changed. */
  ghost predicate GetsTo(x: Program, c: Config, b: int, pos: nat, st: Stack)
    requires st != []
  {
    exists q: nat :: x.Joined(c, At(b, pos, Retop(st, q)))
  }

  /** What running the code of a pattern comes to, given the pattern's answer.

      Without `opt`: a match arrives at the end of the code and a failure backtracks; only, a
      match that leaves a character outside the follow set may backtrack as well, since what
      comes next would fail there.  With `opt`, a match may also end by backtracking to the top
      entry, whose position is then that of the match. */
  ghost predicate Outcome(x: Program, opt: bool, fl: Charset, c: Config, a: Answer, b: int, st: Stack)
    requires opt ==> st != []
  {
    match a
    case Fail => x.Joined(c, Backtrack(st))
    case Match(j) =>
      if opt then GetsTo(x, c, b, j, st) || x.Joined(c, Backtrack(Retop(st, j)))
      else
        || x.Joined(c, At(b, j, st))
        || (j < |x.s| && x.s[j] !in fl && x.Joined(c, Backtrack(st)))
    case Diverge => true
  }

  /** The test that holds where code starts. */
  ghost predicate TestHolds(t: Test, s: seq<byte>, i: nat) {
    match t
    case OnChar(c) => i < |s| && s[i] == c
    case OnSet(cs) => i < |s| && s[i] in cs
    case _ => true
  }

  // ---------------------------------------------------------------- helpers

  lemma HoldsSplit(x: Program, a: int, u: Code, v: Code)
    requires x.Holds(a, u + v)
    ensures x.Holds(a, u) && x.Holds(a + |u|, v)
  {
    forall j | 0 <= j < |u| ensures x.Fits(a + j, u[j]) { assert (u + v)[j] == u[j]; }
    forall j | 0 <= j < |v| ensures x.Fits(a + |u| + j, v[j]) { assert (u + v)[|u| + j] == v[j]; }
  }

  /** An outcome carries back over steps that lead to where it was reached from. */
  lemma OutcomeVia(x: Program, opt: bool, fl: Charset, c: Config, d: Config, a: Answer, b: int, st: Stack)
    requires opt ==> st != []
    requires x.Joined(c, d) && Outcome(x, opt, fl, d, a, b, st)
    ensures Outcome(x, opt, fl, c, a, b, st)
  {
    match a
    case Fail => JoinsTrans(x.code, x.s, c, d, Backtrack(st));
    case Diverge =>
    case Match(j) =>
      if opt {
        if GetsTo(x, d, b, j, st) {
          var q: nat :| x.Joined(d, At(b, j, Retop(st, q)));
          JoinsTrans(x.code, x.s, c, d, At(b, j, Retop(st, q)));
        } else {
          JoinsTrans(x.code, x.s, c, d, Backtrack(Retop(st, j)));
        }
      } else if x.Joined(d, At(b, j, st)) {
        JoinsTrans(x.code, x.s, c, d, At(b, j, st));
      } else {
        JoinsTrans(x.code, x.s, c, d, Backtrack(st));
      }
  }

  /** Arriving at the end of the code is a fine way to match. */
  lemma Arrives(x: Program, opt: bool, fl: Charset, c: Config, j: nat, b: int, st: Stack)
    requires opt ==> st != [] && Top(st).Back?
    requires x.Joined(c, At(b, j, st))
    ensures Outcome(x, opt, fl, c, Match(j), b, st)
  {
    if opt { assert st == Retop(st, Top(st).pos); }
  }

  lemma PopPush(st: Stack, f: Frame)
    ensures Pop(st + [f]) == st && Top(st + [f]) == f
  {
  }

  /** A test lets the code pass exactly the positions whose next character is in its set. */
  lemma TestCorrect(x: Program, cs: Charset, empty: bool, d: int, a: int, i: nat, st: Stack)
    requires i <= |x.s|
    requires x.Holds(a, TestCode(TestOf(cs, empty), d))
    ensures var t := TestOf(cs, empty);
            if empty || NextIn(x.s, i, cs)
            then x.Joined(At(a, i, st), At(a + TestSize(t), i, st)) && TestHolds(t, x.s, i)
            else x.Joined(At(a, i, st), At(a + d, i, st))
  {
    var t := TestOf(cs, empty);
    var c := TestCode(t, d);
    if empty {
      JoinsRefl(x.code, x.s, At(a, i, st));
    } else {
      assert x.Fits(a + 0, c[0]) && x.Fits(a + 1, c[1]);
      if t.OnSet? { assert x.Fits(a + 2, c[2]); }
      JoinsStep(x.code, x.s, At(a, i, st));
    }
  }

  lemma CharCorrect(x: Program, c: byte, tt: Test, opt: bool, fl: Charset, a: int, i: nat, st: Stack, ans: Answer)
    requires i <= |x.s| && TestHolds(tt, x.s, i)
    requires opt ==> st != [] && Top(st).Back?
    requires x.Holds(a, CharCode(c, tt))
    requires ans == if i < |x.s| && x.s[i] == c then Match(i + 1) else Fail
    ensures Outcome(x, opt, fl, At(a, i, st), ans, a + |CharCode(c, tt)|, st)
  {
    assert x.Fits(a + 0, CharCode(c, tt)[0]);
    JoinsStep(x.code, x.s, At(a, i, st));
    if ans.Match? { Arrives(x, opt, fl, At(a, i, st), i + 1, a + 1, st); }
  }

  lemma CharsetCorrect(x: Program, cs: Charset, tt: Test, opt: bool, fl: Charset, a: int, i: nat, st: Stack, ans: Answer)
    requires i <= |x.s| && TestHolds(tt, x.s, i)
    requires opt ==> st != [] && Top(st).Back?
    requires x.Holds(a, CharsetCode(cs, tt))
    requires ans == if NextIn(x.s, i, cs) then Match(i + 1) else Fail
    ensures Outcome(x, opt, fl, At(a, i, st), ans, a + |CharsetCode(cs, tt)|, st)
  {
    var c := CharsetCode(cs, tt);
    match CharsetType(cs)
    case Single(b) => CharCorrect(x, b, tt, opt, fl, a, i, st, ans);
    case Empty =>
      assert x.Fits(a + 0, c[0]);
      JoinsStep(x.code, x.s, At(a, i, st));
    case Everything =>
      assert x.Fits(a + 0, c[0]);
      JoinsStep(x.code, x.s, At(a, i, st));
      if ans.Match? { Arrives(x, opt, fl, At(a, i, st), i + 1, a + |c|, st); }
    case General =>
      assert x.Fits(a + 0, c[0]);
      if tt != OnSet(cs) { assert x.Fits(a + 1, c[1]); }
      JoinsStep(x.code, x.s, At(a, i, st));
      if ans.Match? { Arrives(x, opt, fl, At(a, i, st), i + 1, a + |c|, st); }
  }

  /** A span is what repeating a one-character pattern matches. */
  lemma {:induction false} SpanIsRep(g: Rules, q: Tree, s: seq<byte>, i: nat, n: nat)
    requires IsCharPattern(q) && i <= |s| && !Eval(g, TRep(q), s, i, n).Diverge?
    ensures Eval(g, TRep(q), s, i, n) == Match(SpanEnd(s, ToCharset(q), i))
    decreases |s| - i
  {
    var a := Eval(g, q, s, i, n);
    if a.Match? { SpanIsRep(g, q, s, i + 1, n - 1); }
  }

  lemma AnyCorrect(x: Program, opt: bool, fl: Charset, a: int, i: nat, st: Stack)
    requires x.Holds(a, [IAny]) && i <= |x.s|
    requires opt ==> st != [] && Top(st).Back?
    ensures Outcome(x, opt, fl, At(a, i, st), if i < |x.s| then Match(i + 1) else Fail, a + 1, st)
  {
    assert x.Fits(a + 0, [IAny][0]);
    JoinsStep(x.code, x.s, At(a, i, st));
    if i < |x.s| { Arrives(x, opt, fl, At(a, i, st), i + 1, a + 1, st); }
  }

  /** Following jumps is what the machine does. */
  lemma {:induction false} JumpsRun(x: Program, i: int, n: nat, pos: nat, st: Stack)
    requires 0 <= i
    ensures x.Joined(At(i, pos, st), At(FinalTarget(x.code, i, n), pos, st))
    decreases n
  {
    if n > 0 && IsJump(x.code, i) {
      JumpsRun(x, Target(x.code, i), n - 1, pos, st);
      JoinsVia(x.code, x.s, At(i, pos, st), At(FinalTarget(x.code, i, n), pos, st));
    } else {
      JoinsRefl(x.code, x.s, At(i, pos, st));
    }
  }

  lemma RetopTwice(st: Stack, p: nat, q: nat)
    requires st != [] && Top(st).Back?
    ensures Retop(Retop(st, p), q) == Retop(st, q)
    ensures Retop(st, p) != [] && Top(Retop(st, p)).Back? && Backtrack(Retop(st, p)) == At(Top(st).pc, p, Pop(st))
    ensures p == Top(st).pos ==> Retop(st, p) == st
  {
    assert Pop(Retop(st, p)) == Pop(st);
  }

  /** A pushed entry, its position changed: backtracking resumes at its address. */
  lemma BacktrackPushed(st: Stack, p: nat, pc: int, q: nat)
    ensures var st1 := st + [Back(p, pc)];
            && Retop(st1, q) == st + [Back(q, pc)]
            && Backtrack(st1) == At(pc, p, st) && Backtrack(Retop(st1, q)) == At(pc, q, st)
            && Pop(st1) == st && Pop(Retop(st1, q)) == st && Top(Retop(st1, q)) == Back(q, pc)
  {
    assert Pop(st + [Back(p, pc)]) == st;
    assert Pop(st + [Back(q, pc)]) == st;
  }

  // ---------------------------------------------------------------- one level of the definitions

  lemma UnfoldSeq(g: Rules, k: nat, p1: Tree, p2: Tree, opt: bool, tt: Test, fl: Charset, s: seq<byte>, i: nat, n: nat)
    requires i <= |s|
    ensures Gen(g, k, TSeq(p1, p2), opt, tt, fl)
         == Gen(g, k, p1, false, tt, FollowOf(g, k, p1, p2, fl)) + Gen(g, k, p2, opt, SecondTest(g, p1, tt), fl)
    ensures var a := Eval(g, p1, s, i, n);
            Eval(g, TSeq(p1, p2), s, i, n) == if a.Match? then Eval(g, p2, s, a.pos, n) else a
    ensures WellFormed(g, TSeq(p1, p2)) ==> WellFormed(g, p1) && WellFormed(g, p2)
  {
  }

  lemma UnfoldChoice(g: Rules, k: nat, p1: Tree, p2: Tree, opt: bool, tt: Test, fl: Charset, s: seq<byte>, i: nat, n: nat)
    requires i <= |s|
    ensures var f1 := GetFirst(g, k, p1, FULLSET);
            var t := TestOf(f1.cs, false);
            var u := TestOf(f1.cs, f1.empty);
            var c2 := Gen(g, k, p2, opt, NoTest, fl);
            Gen(g, k, TChoice(p1, p2), opt, tt, fl) == (
              if TestDecides(g, k, p1, p2, fl) then ChoiceByTest(t, Gen(g, k, p1, false, t, fl), c2, p2.TTrue?)
              else if opt && p2.TTrue? then [IPartialCommit, Offset(2)] + Gen(g, k, p1, true, NoTest, FULLSET)
              else ChoiceWithEntry(u, Gen(g, k, p1, p2.TTrue?, u, FULLSET), c2))
    ensures var a := Eval(g, p1, s, i, n);
            Eval(g, TChoice(p1, p2), s, i, n) == if a.Fail? then Eval(g, p2, s, i, n) else a
    ensures WellFormed(g, TChoice(p1, p2)) ==> WellFormed(g, p1) && WellFormed(g, p2)
  {
  }

  lemma UnfoldTrue(g: Rules, k: nat, opt: bool, tt: Test, fl: Charset, s: seq<byte>, i: nat, n: nat)
    requires i <= |s|
    ensures Gen(g, k, TTrue, opt, tt, fl) == [] && Eval(g, TTrue, s, i, n) == Match(i)
  {
  }

  lemma UnfoldRep(g: Rules, k: nat, q: Tree, opt: bool, tt: Test, fl: Charset, s: seq<byte>, i: nat, n: nat)
    requires i <= |s|
    ensures var f := GetFirst(g, k, q, FULLSET);
            var t := TestOf(f.cs, false);
            Gen(g, k, TRep(q), opt, tt, fl) == (
              if IsCharPattern(q) then [ISpan, Buffer(ToCharset(q))]
              else if TestDecidesLoop(g, k, q, fl) then LoopByTest(t, Gen(g, k, q, false, t, FULLSET))
              else LoopWithEntry(TestOf(f.cs, f.empty), Gen(g, k, q, false, NoTest, FULLSET), opt))
    ensures var a := Eval(g, q, s, i, n);
            Eval(g, TRep(q), s, i, n) == (
              if a.Fail? then Match(i)
              else if a.Diverge? || n == 0 then Diverge
              else Eval(g, TRep(q), s, a.pos, n - 1))
    ensures WellFormed(g, TRep(q)) ==> WellFormed(g, q)
  {
  }

  lemma UnfoldNot(g: Rules, k: nat, q: Tree, opt: bool, tt: Test, fl: Charset, s: seq<byte>, i: nat, n: nat)
    requires i <= |s|
    ensures var f := GetFirst(g, k, q, FULLSET);
            var t := TestOf(f.cs, f.empty);
            Gen(g, k, TNot(q), opt, tt, fl) == (
              if HeadFail(g, k, q) then NotByTest(t) else NotWithEntry(t, Gen(g, k, q, false, NoTest, FULLSET)))
    ensures var a := Eval(g, q, s, i, n);
            Eval(g, TNot(q), s, i, n) == if a.Fail? then Match(i) else if a.Match? then Fail else Diverge
    ensures WellFormed(g, TNot(q)) ==> WellFormed(g, q)
  {
  }

  lemma UnfoldAnd(g: Rules, k: nat, q: Tree, opt: bool, tt: Test, fl: Charset, s: seq<byte>, i: nat, n: nat)
    requires i <= |s|
    ensures var len := FixedLen(g, q);
            var c := Gen(g, k, q, false, tt, FULLSET);
            Gen(g, k, TAnd(q), opt, tt, fl) == (
              if 0 <= len <= MAXBEHIND then c + BehindCode(len) else AndWithEntry(c))
    ensures var a := Eval(g, q, s, i, n);
            Eval(g, TAnd(q), s, i, n) == if a.Match? then Match(i) else a
    ensures WellFormed(g, TAnd(q)) ==> WellFormed(g, q)
  {
  }

  lemma UnfoldBehind(g: Rules, k: nat, b: int, q: Tree, opt: bool, tt: Test, fl: Charset, s: seq<byte>, i: nat, n: nat)
    requires i <= |s|
    ensures Gen(g, k, TBehind(b, q), opt, tt, fl) == BehindCode(b) + Gen(g, k, q, false, NoTest, FULLSET)
    ensures Eval(g, TBehind(b, q), s, i, n)
         == if b < 0 || i < b then Fail
            else var a := Eval(g, q, s, i - b, n); if a.Match? then Match(i) else a
    ensures WellFormed(g, TBehind(b, q)) ==> 0 <= b <= MAXBEHIND && b == FixedLen(g, q) && WellFormed(g, q)
  {
  }

  lemma UnfoldCall(g: Rules, k: nat, r: nat, opt: bool, tt: Test, fl: Charset, s: seq<byte>, i: nat, n: nat)
    requires i <= |s|
    ensures Gen(g, k, TCall(r), opt, tt, fl) == [IOpenCall(RuleKey(r)), Hole]
    ensures Eval(g, TCall(r), s, i, n) == if n == 0 || r >= |g| then Diverge else Eval(g, g[r], s, i, n - 1)
    ensures WellFormed(g, TCall(r)) ==> r < |g| && RuleKey(r) == r
  {
  }

  lemma UnfoldGrammar(g: Rules, k: nat, p: Tree, opt: bool, tt: Test, fl: Charset, s: seq<byte>, i: nat, n: nat)
    requires i <= |s| && p.TGrammar? && WellFormed(g, p)
    ensures Gen(g, k, p, opt, tt, fl) == Gen(g, k, p, false, NoTest, FULLSET)
    ensures p.rules != [] && Eval(g, p, s, i, n) == Eval(p.rules, p.rules[0], s, i, n)
    ensures WellFormed(p.rules, p.rules[0])
  {
  }

  // ---------------------------------------------------------------- code in the program, part by part

  /** Slot `q` holds the label instruction `op` that points at `l`. */
  predicate Points(x: Program, q: int, op: Instr, l: int) {
    0 <= q && HasLabel(x.code, q) && x.code[q] == op && Target(x.code, q) == l
  }

  /** Slot `q` holds `op`. */
  predicate Has(x: Program, q: int, op: Instr) { 0 <= q < |x.code| && x.code[q] == op }

  lemma HoldsLabel(x: Program, a: int, op: Instr, d: int)
    requires x.Holds(a, [op, Offset(d)]) && !op.IOpenCall? && !op.Hole?
    ensures Points(x, a, op, a + d)
  {
    assert x.Fits(a + 0, [op, Offset(d)][0]) && x.Fits(a + 1, [op, Offset(d)][1]);
  }

  lemma HoldsOne(x: Program, a: int, op: Instr)
    requires x.Holds(a, [op]) && !op.IOpenCall? && !op.Hole?
    ensures Has(x, a, op)
  {
    assert x.Fits(a + 0, [op][0]);
  }

  lemma ChoiceByTestParts(x: Program, a: int, t: Test, c1: Code, c2: Code, empty: bool)
    requires x.Holds(a, ChoiceByTest(t, c1, c2, empty))
    ensures var h := a + TestSize(t);
            var l1 := h + |c1| + (if empty then 0 else 2);
            && x.Holds(a, TestCode(t, l1 - a)) && x.Holds(h, c1) && x.Holds(l1, c2)
            && (!empty ==> Points(x, h + |c1|, IJmp, l1 + |c2|))
  {
    hide Program.Holds;
    var jmp := if empty then [] else [IJmp, Offset(2 + |c2|)];
    var tc := TestCode(t, TestSize(t) + |c1| + |jmp|);
    HoldsSplit(x, a, tc + c1 + jmp, c2);
    HoldsSplit(x, a, tc + c1, jmp);
    HoldsSplit(x, a, tc, c1);
    if !empty { HoldsLabel(x, a + TestSize(t) + |c1|, IJmp, 2 + |c2|); }
  }

  lemma ChoiceWithEntryParts(x: Program, a: int, t: Test, c1: Code, c2: Code)
    requires x.Holds(a, ChoiceWithEntry(t, c1, c2))
    ensures var h := a + TestSize(t);
            var l1 := h + |c1| + 4;
            && x.Holds(a, TestCode(t, l1 - a)) && x.Holds(h + 2, c1) && x.Holds(l1, c2)
            && Points(x, h, IChoice, l1) && Points(x, h + 2 + |c1|, ICommit, l1 + |c2|)
  {
    hide Program.Holds;
    var tc := TestCode(t, TestSize(t) + |c1| + 4);
    var ch: Code := [IChoice, Offset(|c1| + 4)];
    var cm: Code := [ICommit, Offset(2 + |c2|)];
    HoldsSplit(x, a, tc + ch + c1 + cm, c2);
    HoldsSplit(x, a, tc + ch + c1, cm);
    HoldsSplit(x, a, tc + ch, c1);
    HoldsSplit(x, a, tc, ch);
    HoldsLabel(x, a + TestSize(t), IChoice, |c1| + 4);
    HoldsLabel(x, a + TestSize(t) + 2 + |c1|, ICommit, 2 + |c2|);
  }

  lemma LoopByTestParts(x: Program, a: int, t: Test, c: Code)
    requires x.Holds(a, LoopByTest(t, c))
    ensures var h := a + TestSize(t);
            && x.Holds(a, TestCode(t, h + |c| + 2 - a)) && x.Holds(h, c) && Points(x, h + |c|, IJmp, a)
  {
    hide Program.Holds;
    var tc := TestCode(t, TestSize(t) + |c| + 2);
    HoldsSplit(x, a, tc + c, [IJmp, Offset(-(TestSize(t) + |c|))]);
    HoldsSplit(x, a, tc, c);
    HoldsLabel(x, a + TestSize(t) + |c|, IJmp, -(TestSize(t) + |c|));
  }

  lemma LoopWithEntryParts(x: Program, a: int, t: Test, c: Code, opt: bool)
    requires x.Holds(a, LoopWithEntry(t, c, opt))
    ensures var h := a + TestSize(t);
            var end := h + |c| + 4;
            && x.Holds(a, TestCode(t, end - a)) && x.Holds(h + 2, c)
            && (if opt then Points(x, h, IPartialCommit, h + 2) else Points(x, h, IChoice, end))
            && Points(x, h + 2 + |c|, IPartialCommit, h + 2)
  {
    hide Program.Holds;
    var tc := TestCode(t, TestSize(t) + |c| + 4);
    var e: Code := if opt then [IPartialCommit, Offset(2)] else [IChoice, Offset(|c| + 4)];
    HoldsSplit(x, a, tc + e + c, [IPartialCommit, Offset(-|c|)]);
    HoldsSplit(x, a, tc + e, c);
    HoldsSplit(x, a, tc, e);
    if opt { HoldsLabel(x, a + TestSize(t), IPartialCommit, 2); }
    else { HoldsLabel(x, a + TestSize(t), IChoice, |c| + 4); }
    HoldsLabel(x, a + TestSize(t) + 2 + |c|, IPartialCommit, -|c|);
  }

  lemma NotByTestParts(x: Program, a: int, t: Test)
    requires x.Holds(a, NotByTest(t))
    ensures x.Holds(a, TestCode(t, TestSize(t) + 1)) && Has(x, a + TestSize(t), IFail)
  {
    hide Program.Holds;
    HoldsSplit(x, a, TestCode(t, TestSize(t) + 1), [IFail]);
    HoldsOne(x, a + TestSize(t), IFail);
  }

  lemma NotWithEntryParts(x: Program, a: int, t: Test, c: Code)
    requires x.Holds(a, NotWithEntry(t, c))
    ensures var h := a + TestSize(t);
            var end := h + |c| + 3;
            && x.Holds(a, TestCode(t, end - a)) && x.Holds(h + 2, c)
            && Points(x, h, IChoice, end) && Has(x, h + 2 + |c|, IFailTwice)
  {
    hide Program.Holds;
    var tc := TestCode(t, TestSize(t) + |c| + 3);
    var ch: Code := [IChoice, Offset(|c| + 3)];
    HoldsSplit(x, a, tc + ch + c, [IFailTwice]);
    HoldsSplit(x, a, tc + ch, c);
    HoldsSplit(x, a, tc, ch);
    HoldsLabel(x, a + TestSize(t), IChoice, |c| + 3);
    HoldsOne(x, a + TestSize(t) + 2 + |c|, IFailTwice);
  }

  lemma AndWithEntryParts(x: Program, a: int, c: Code)
    requires x.Holds(a, AndWithEntry(c))
    ensures var b := a + 2 + |c|;
            && x.Holds(a + 2, c) && Points(x, a, IChoice, b + 2)
            && Points(x, b, IBackCommit, b + 3) && Has(x, b + 2, IFail)
  {
    hide Program.Holds;
    var ch: Code := [IChoice, Offset(|c| + 4)];
    var tail: Code := [IBackCommit, Offset(3), IFail];
    HoldsSplit(x, a, ch + c, tail);
    HoldsSplit(x, a, ch, c);
    HoldsLabel(x, a, IChoice, |c| + 4);
    assert tail == [IBackCommit, Offset(3)] + [IFail];
    HoldsSplit(x, a + 2 + |c|, [IBackCommit, Offset(3)], [IFail]);
    HoldsLabel(x, a + 2 + |c|, IBackCommit, 3);
    HoldsOne(x, a + 4 + |c|, IFail);
  }

  lemma BehindParts(x: Program, a: int, n: int)
    requires x.Holds(a, BehindCode(n)) && n > 0
    ensures Has(x, a, IBehind(n))
  {
    HoldsOne(x, a, IBehind(n));
  }

  // ---------------------------------------------------------------- what single instructions do

  lemma RunJmp(x: Program, q: int, l: int, i: nat, st: Stack)
    requires Points(x, q, IJmp, l)
    ensures x.Joined(At(q, i, st), At(l, i, st))
  {
    JoinsStep(x.code, x.s, At(q, i, st));
  }

  lemma RunChoice(x: Program, q: int, l: int, i: nat, st: Stack)
    requires Points(x, q, IChoice, l)
    ensures x.Joined(At(q, i, st), At(q + 2, i, st + [Back(i, l)]))
  {
    JoinsStep(x.code, x.s, At(q, i, st));
  }

  lemma RunCommit(x: Program, q: int, l: int, i: nat, st: Stack)
    requires Points(x, q, ICommit, l) && st != [] && Top(st).Back?
    ensures x.Joined(At(q, i, st), At(l, i, Pop(st)))
  {
    JoinsStep(x.code, x.s, At(q, i, st));
  }

  lemma RunPartialCommit(x: Program, q: int, l: int, i: nat, st: Stack)
    requires Points(x, q, IPartialCommit, l) && st != [] && Top(st).Back?
    ensures x.Joined(At(q, i, st), At(l, i, Retop(st, i)))
  {
    JoinsStep(x.code, x.s, At(q, i, st));
  }

  lemma RunBackCommit(x: Program, q: int, l: int, i: nat, st: Stack)
    requires Points(x, q, IBackCommit, l) && st != [] && Top(st).Back?
    ensures x.Joined(At(q, i, st), At(l, Top(st).pos, Pop(st)))
  {
    JoinsStep(x.code, x.s, At(q, i, st));
  }

  lemma RunFail(x: Program, q: int, i: nat, st: Stack)
    requires Has(x, q, IFail)
    ensures x.Joined(At(q, i, st), Backtrack(st))
  {
    JoinsStep(x.code, x.s, At(q, i, st));
  }

  lemma RunFailTwice(x: Program, q: int, i: nat, st: Stack)
    requires Has(x, q, IFailTwice) && st != []
    ensures x.Joined(At(q, i, st), Backtrack(Pop(st)))
  {
    JoinsStep(x.code, x.s, At(q, i, st));
  }

  lemma RunBehind(x: Program, q: int, n: nat, i: nat, st: Stack)
    requires Has(x, q, IBehind(n))
    ensures x.Joined(At(q, i, st), if n > i then Backtrack(st) else At(q + 1, i - n, st))
  {
    JoinsStep(x.code, x.s, At(q, i, st));
  }

  /** Joined configurations chain. */
  lemma Then(x: Program, c: Config, d: Config, e: Config)
    requires x.Joined(c, d) && x.Joined(d, e)
    ensures x.Joined(c, e)
  {
    JoinsTrans(x.code, x.s, c, d, e);
  }

  // ---------------------------------------------------------------- the theorem

  /** What every step of the proof assumes: the linked program holds the code of a well-formed
      pattern at `a`, the guarding test holds at `i`, and a reusable entry is there if needed. */
  ghost predicate Ready(x: Program, p: Tree, opt: bool, tt: Test, fl: Charset, a: int, i: nat, st: Stack) {
    && x.Linked() && WellFormed(x.g, p) && i <= |x.s|
    && x.Holds(a, Gen(x.g, x.k, p, opt, tt, fl))
    && TestHolds(tt, x.s, i)
    && (opt ==> fl == FULLSET && st != [] && Top(st).Back?)
  }

  /** Size of the code of `p`. */
  ghost function Size(x: Program, p: Tree, opt: bool, tt: Test, fl: Charset): nat {
    |Gen(x.g, x.k, p, opt, tt, fl)|
  }

  /** Generated code is correct: from its start the machine comes to the outcome that the answer of
      the pattern calls for. */
  lemma {:induction false} GenCorrect(
      x: Program, p: Tree, opt: bool, tt: Test, fl: Charset, a: int, i: nat, st: Stack, n: nat)
    requires Ready(x, p, opt, tt, fl, a, i, st)
    requires !Eval(x.g, p, x.s, i, n).Diverge?
    ensures Outcome(x, opt, fl, At(a, i, st), Eval(x.g, p, x.s, i, n), a + Size(x, p, opt, tt, fl), st)
    decreases n, p, 1
  {
    hide Gen, Eval, WellFormed, Program.Holds, Program.Linked, Program.Joined, Joins, Step, GetFirst, HeadFail, CheckAux, FixedLenX,
      TestCode, TestOf, ChoiceByTest, ChoiceWithEntry, LoopByTest, LoopWithEntry, NotByTest, NotWithEntry, AndWithEntry;
    match p
    case TSeq(p1, p2) => SeqCorrect(x, p1, p2, opt, tt, fl, a, i, st, n);
    case TChoice(p1, p2) =>
      if TestDecides(x.g, x.k, p1, p2, fl) { ChoiceByTestCorrect(x, p1, p2, opt, tt, fl, a, i, st, n); }
      else if opt && p2.TTrue? { OptionalCorrect(x, p1, tt, a, i, st, n); }
      else { ChoiceWithEntryCorrect(x, p1, p2, opt, tt, fl, a, i, st, n); }
    case TRep(q) =>
      if IsCharPattern(q) { SpanCorrect(x, q, opt, tt, fl, a, i, st, n); }
      else if TestDecidesLoop(x.g, x.k, q, fl) { LoopByTestCorrect(x, q, opt, tt, fl, a, i, st, n); }
      else { LoopWithEntryCorrect(x, q, opt, tt, fl, a, i, st, n); }
    case TNot(q) => NotCorrect(x, q, opt, tt, fl, a, i, st, n);
    case TAnd(q) => AndCorrect(x, q, opt, tt, fl, a, i, st, n);
    case TBehind(m, q) => BehindCorrect(x, m, q, opt, tt, fl, a, i, st, n);
    case TCall(r) => CallCorrect(x, r, opt, tt, fl, a, i, st, n);
    case TGrammar(rs) => GrammarCorrect(x, p, opt, tt, fl, a, i, st, n);
    case _ => LeafCorrect(x, p, opt, tt, fl, a, i, st, n);
  }

  lemma LeafCorrect(
      x: Program, p: Tree, opt: bool, tt: Test, fl: Charset, a: int, i: nat, st: Stack, n: nat)
    requires IsCharPattern(p) || p.TTrue? || p.TFalse?
    requires Ready(x, p, opt, tt, fl, a, i, st)
    ensures Outcome(x, opt, fl, At(a, i, st), Eval(x.g, p, x.s, i, n), a + Size(x, p, opt, tt, fl), st)
  {
    match p
    case TChar(b) => CharCorrect(x, b, tt, opt, fl, a, i, st, Eval(x.g, p, x.s, i, n));
    case TSet(cs) => CharsetCorrect(x, cs, tt, opt, fl, a, i, st, Eval(x.g, p, x.s, i, n));
    case TAny => AnyCorrect(x, opt, fl, a, i, st);
    case TTrue =>
      JoinsRefl(x.code, x.s, At(a, i, st));
      Arrives(x, opt, fl, At(a, i, st), i, a, st);
    case TFalse =>
      HoldsOne(x, a, IFail);
      RunFail(x, a, i, st);
  }

  /** A repeated character pattern is one instruction. */
  lemma SpanCorrect(
      x: Program, q: Tree, opt: bool, tt: Test, fl: Charset, a: int, i: nat, st: Stack, n: nat)
    requires IsCharPattern(q) && Ready(x, TRep(q), opt, tt, fl, a, i, st)
    requires !Eval(x.g, TRep(q), x.s, i, n).Diverge?
    ensures Outcome(x, opt, fl, At(a, i, st), Eval(x.g, TRep(q), x.s, i, n), a + Size(x, TRep(q), opt, tt, fl), st)
  {
    SpanIsRep(x.g, q, x.s, i, n);
    var cs := ToCharset(q);
    var c: Code := [ISpan, Buffer(cs)];
    assert x.Fits(a + 0, c[0]) && x.Fits(a + 1, c[1]);
    JoinsStep(x.code, x.s, At(a, i, st));
    Arrives(x, opt, fl, At(a, i, st), SpanEnd(x.s, cs, i), a + 2, st);
  }

  lemma {:induction false} SeqCorrect(
      x: Program, p1: Tree, p2: Tree, opt: bool, tt: Test, fl: Charset, a: int, i: nat, st: Stack, n: nat)
    requires Ready(x, TSeq(p1, p2), opt, tt, fl, a, i, st)
    requires !Eval(x.g, TSeq(p1, p2), x.s, i, n).Diverge?
    ensures Outcome(x, opt, fl, At(a, i, st), Eval(x.g, TSeq(p1, p2), x.s, i, n),
                    a + Size(x, TSeq(p1, p2), opt, tt, fl), st)
    decreases n, TSeq(p1, p2), 0
  {
    hide Gen, Eval, WellFormed, Program.Holds, Program.Linked, Program.Joined, Joins, Step, GetFirst, HeadFail, CheckAux, FixedLenX,
      TestCode, TestOf, ChoiceByTest, ChoiceWithEntry, LoopByTest, LoopWithEntry, NotByTest, NotWithEntry, AndWithEntry;
    UnfoldSeq(x.g, x.k, p1, p2, opt, tt, fl, x.s, i, n);
    var fl1 := FollowOf(x.g, x.k, p1, p2, fl);
    var t2 := SecondTest(x.g, p1, tt);
    var c1 := Gen(x.g, x.k, p1, false, tt, fl1);
    var c2 := Gen(x.g, x.k, p2, opt, t2, fl);
    assert Gen(x.g, x.k, TSeq(p1, p2), opt, tt, fl) == c1 + c2;
    HoldsSplit(x, a, c1, c2);
    var start := At(a, i, st);
    var mid := a + |c1|;
    var m1 := Eval(x.g, p1, x.s, i, n);
    GenCorrect(x, p1, false, tt, fl1, a, i, st, n);
    if m1.Match? {
      var j := m1.pos;
      var m2 := Eval(x.g, p2, x.s, j, n);
      if x.Joined(start, At(mid, j, st)) {
        if FixedLen(x.g, p1) == 0 { FixedLenSound(x.g, p1, 0, 0, x.s, i, n); }
        GenCorrect(x, p2, opt, t2, fl, mid, j, st, n);
        OutcomeVia(x, opt, fl, start, At(mid, j, st), m2, mid + |c2|, st);
      } else {
        GetFirstSound(x.g, x.k, p2, fl, x.s, j, n);
      }
    }
  }

  lemma {:induction false} ChoiceByTestCorrect(
      x: Program, p1: Tree, p2: Tree, opt: bool, tt: Test, fl: Charset, a: int, i: nat, st: Stack, n: nat)
    requires Ready(x, TChoice(p1, p2), opt, tt, fl, a, i, st)
    requires TestDecides(x.g, x.k, p1, p2, fl)
    requires !Eval(x.g, TChoice(p1, p2), x.s, i, n).Diverge?
    ensures Outcome(x, opt, fl, At(a, i, st), Eval(x.g, TChoice(p1, p2), x.s, i, n),
                    a + Size(x, TChoice(p1, p2), opt, tt, fl), st)
    decreases n, TChoice(p1, p2), 0
  {
    hide Gen, Eval, WellFormed, Program.Holds, Program.Linked, Program.Joined, Joins, Step, GetFirst, HeadFail, CheckAux, FixedLenX,
      TestCode, TestOf, ChoiceByTest, ChoiceWithEntry, LoopByTest, LoopWithEntry, NotByTest, NotWithEntry, AndWithEntry;
    UnfoldTrue(x.g, x.k, opt, NoTest, fl, x.s, i, n);
    UnfoldChoice(x.g, x.k, p1, p2, opt, tt, fl, x.s, i, n);
    var f1 := GetFirst(x.g, x.k, p1, FULLSET);
    var t := TestOf(f1.cs, false);
    var c1 := Gen(x.g, x.k, p1, false, t, fl);
    var c2 := Gen(x.g, x.k, p2, opt, NoTest, fl);
    ChoiceByTestParts(x, a, t, c1, c2, p2.TTrue?);
    var start := At(a, i, st);
    var h := a + TestSize(t);
    var l1 := h + |c1| + (if p2.TTrue? then 0 else 2);
    var end := l1 + |c2|;
    var m1 := Eval(x.g, p1, x.s, i, n);
    var m2 := Eval(x.g, p2, x.s, i, n);
    TestCorrect(x, f1.cs, false, l1 - a, a, i, st);
    GetFirstSound(x.g, x.k, p1, FULLSET, x.s, i, n);
    if HeadFail(x.g, x.k, p1) { HeadFailExact(x.g, x.k, p1, x.s, i, n); }
    if NextIn(x.s, i, f1.cs) {
      GenCorrect(x, p1, false, t, fl, h, i, st, n);
      OutcomeVia(x, false, fl, start, At(h, i, st), m1, h + |c1|, st);
      if m1.Match? {
        var e := At(h + |c1|, m1.pos, st);
        if x.Joined(start, e) {
          if !p2.TTrue? {
            RunJmp(x, h + |c1|, end, m1.pos, st);
            Then(x, start, e, At(end, m1.pos, st));
          }
          Arrives(x, opt, fl, start, m1.pos, end, st);
        }
      } else {
        GetFirstSound(x.g, x.k, p2, fl, x.s, i, n);
      }
    } else {
      GenCorrect(x, p2, opt, NoTest, fl, l1, i, st, n);
      OutcomeVia(x, opt, fl, start, At(l1, i, st), m2, end, st);
    }
  }

  /** `p?` at the end of an optional pattern reuses the outer entry. */
  lemma {:induction false} OptionalCorrect(x: Program, p1: Tree, tt: Test, a: int, i: nat, st: Stack, n: nat)
    requires Ready(x, TChoice(p1, TTrue), true, tt, FULLSET, a, i, st)
    requires !TestDecides(x.g, x.k, p1, TTrue, FULLSET)
    requires !Eval(x.g, TChoice(p1, TTrue), x.s, i, n).Diverge?
    ensures Outcome(x, true, FULLSET, At(a, i, st), Eval(x.g, TChoice(p1, TTrue), x.s, i, n),
                    a + Size(x, TChoice(p1, TTrue), true, tt, FULLSET), st)
    decreases n, TChoice(p1, TTrue), 0
  {
    hide Retop, Backtrack;
    hide Gen, Eval, WellFormed, Program.Holds, Program.Linked, Program.Joined, Joins, Step, GetFirst, HeadFail, CheckAux, FixedLenX,
      TestCode, TestOf, ChoiceByTest, ChoiceWithEntry, LoopByTest, LoopWithEntry, NotByTest, NotWithEntry, AndWithEntry;
    UnfoldChoice(x.g, x.k, p1, TTrue, true, tt, FULLSET, x.s, i, n);
    UnfoldTrue(x.g, x.k, true, NoTest, FULLSET, x.s, i, n);
    var c1 := Gen(x.g, x.k, p1, true, NoTest, FULLSET);
    var pc: Code := [IPartialCommit, Offset(2)];
    assert Gen(x.g, x.k, TChoice(p1, TTrue), true, tt, FULLSET) == pc + c1;
    HoldsSplit(x, a, pc, c1);
    HoldsLabel(x, a, IPartialCommit, 2);
    var start := At(a, i, st);
    var st1 := Retop(st, i);
    RunPartialCommit(x, a, a + 2, i, st);
    RetopTwice(st, i, i);
    GenCorrect(x, p1, true, NoTest, FULLSET, a + 2, i, st1, n);
    var m1 := Eval(x.g, p1, x.s, i, n);
    var end := a + 2 + |c1|;
    OutcomeVia(x, true, FULLSET, start, At(a + 2, i, st1), m1, end, st1);
    if m1.Match? {
      if GetsTo(x, start, end, m1.pos, st1) {
        var q: nat :| x.Joined(start, At(end, m1.pos, Retop(st1, q)));
        RetopTwice(st, i, q);
      }
      RetopTwice(st, i, m1.pos);
    }
  }

  lemma {:induction false} ChoiceWithEntryCorrect(
      x: Program, p1: Tree, p2: Tree, opt: bool, tt: Test, fl: Charset, a: int, i: nat, st: Stack, n: nat)
    requires Ready(x, TChoice(p1, p2), opt, tt, fl, a, i, st)
    requires !TestDecides(x.g, x.k, p1, p2, fl) && !(opt && p2.TTrue?)
    requires !Eval(x.g, TChoice(p1, p2), x.s, i, n).Diverge?
    ensures Outcome(x, opt, fl, At(a, i, st), Eval(x.g, TChoice(p1, p2), x.s, i, n),
                    a + Size(x, TChoice(p1, p2), opt, tt, fl), st)
    decreases n, TChoice(p1, p2), 0, 1
  {
    hide Gen, Eval, WellFormed, Program.Holds, Program.Linked, Program.Joined, Joins, Step, GetFirst, HeadFail, CheckAux, FixedLenX,
      TestCode, TestOf, ChoiceByTest, ChoiceWithEntry, LoopByTest, LoopWithEntry, NotByTest, NotWithEntry, AndWithEntry;
    UnfoldChoice(x.g, x.k, p1, p2, opt, tt, fl, x.s, i, n);
    UnfoldTrue(x.g, x.k, opt, NoTest, fl, x.s, i, n);
    var f1 := GetFirst(x.g, x.k, p1, FULLSET);
    var t := TestOf(f1.cs, f1.empty);
    var c1 := Gen(x.g, x.k, p1, p2.TTrue?, t, FULLSET);
    var c2 := Gen(x.g, x.k, p2, opt, NoTest, fl);
    ChoiceWithEntryParts(x, a, t, c1, c2);
    var start := At(a, i, st);
    var l1 := a + TestSize(t) + |c1| + 4;
    var m1 := Eval(x.g, p1, x.s, i, n);
    FirstAlternative(x, p1, p2.TTrue?, a, l1 + |c2|, i, st, n);
    if m1.Match? {
      Arrives(x, opt, fl, start, m1.pos, l1 + |c2|, st);
    } else {
      GenCorrect(x, p2, opt, NoTest, fl, l1, i, st, n);
      OutcomeVia(x, opt, fl, start, At(l1, i, st), Eval(x.g, p2, x.s, i, n), l1 + |c2|, st);
    }
  }

  /** The first alternative of a choice with an entry of its own: a match ends the choice, a failure
      gets to the second alternative with nothing changed. */
  lemma {:induction false} FirstAlternative(
      x: Program, p1: Tree, empty: bool, a: int, end: int, i: nat, st: Stack, n: nat)
    requires x.Linked() && WellFormed(x.g, p1) && i <= |x.s|
    requires !Eval(x.g, p1, x.s, i, n).Diverge?
    requires var f1 := GetFirst(x.g, x.k, p1, FULLSET);
             var t := TestOf(f1.cs, f1.empty);
             var c1 := Gen(x.g, x.k, p1, empty, t, FULLSET);
             var h := a + TestSize(t);
             var l1 := h + |c1| + 4;
             && x.Holds(a, TestCode(t, l1 - a)) && x.Holds(h + 2, c1)
             && Points(x, h, IChoice, l1) && Points(x, h + 2 + |c1|, ICommit, end)
             && (empty ==> l1 == end)
    ensures var f1 := GetFirst(x.g, x.k, p1, FULLSET);
            var t := TestOf(f1.cs, f1.empty);
            var l1 := a + TestSize(t) + |Gen(x.g, x.k, p1, empty, t, FULLSET)| + 4;
            match Eval(x.g, p1, x.s, i, n)
            case Match(j) => x.Joined(At(a, i, st), At(end, j, st))
            case _ => x.Joined(At(a, i, st), At(l1, i, st))
    decreases n, p1, 2
  {
    hide Gen, Eval, WellFormed, Program.Holds, Program.Linked, Program.Joined, Joins, Step, GetFirst, HeadFail, CheckAux, FixedLenX,
      TestCode, TestOf, ChoiceByTest, ChoiceWithEntry, LoopByTest, LoopWithEntry, NotByTest, NotWithEntry, AndWithEntry;
    var f1 := GetFirst(x.g, x.k, p1, FULLSET);
    var t := TestOf(f1.cs, f1.empty);
    var c1 := Gen(x.g, x.k, p1, empty, t, FULLSET);
    var start := At(a, i, st);
    var h := a + TestSize(t);
    var l1 := h + |c1| + 4;
    var m1 := Eval(x.g, p1, x.s, i, n);
    TestCorrect(x, f1.cs, f1.empty, l1 - a, a, i, st);
    GetFirstSound(x.g, x.k, p1, FULLSET, x.s, i, n);
    if f1.empty || NextIn(x.s, i, f1.cs) {
      var st1 := st + [Back(i, l1)];
      RunChoice(x, h, l1, i, st);
      Then(x, start, At(h, i, st), At(h + 2, i, st1));
      BacktrackPushed(st, i, l1, i);
      GenCorrect(x, p1, empty, t, FULLSET, h + 2, i, st1, n);
      OutcomeVia(x, empty, FULLSET, start, At(h + 2, i, st1), m1, h + 2 + |c1|, st1);
      if m1.Match? {
        ChoiceCommits(x, start, empty, m1.pos, h + 2 + |c1|, end, st, i, l1);
      }
    }
  }

  /** When the first alternative has matched, its entry is committed (or was used up), and the
      machine is at the end of the choice. */
  lemma ChoiceCommits(
      x: Program, start: Config, empty: bool, j: nat, b: int, end: int, st: Stack, i: nat, l1: int)
    requires Outcome(x, empty, FULLSET, start, Match(j), b, st + [Back(i, l1)])
    requires empty ==> l1 == end
    requires Points(x, b, ICommit, end)
    ensures x.Joined(start, At(end, j, st))
  {
    var st1 := st + [Back(i, l1)];
    BacktrackPushed(st, i, l1, j);
    if empty {
      if GetsTo(x, start, b, j, st1) {
        var q: nat :| x.Joined(start, At(b, j, Retop(st1, q)));
        BacktrackPushed(st, i, l1, q);
        RunCommit(x, b, end, j, Retop(st1, q));
        Then(x, start, At(b, j, Retop(st1, q)), At(end, j, st));
      }
    } else {
      RunCommit(x, b, end, j, st1);
      Then(x, start, At(b, j, st1), At(end, j, st));
    }
  }

  lemma {:induction false} LoopByTestCorrect(
      x: Program, q: Tree, opt: bool, tt: Test, fl: Charset, a: int, i: nat, st: Stack, n: nat)
    requires Ready(x, TRep(q), opt, tt, fl, a, i, st)
    requires !IsCharPattern(q) && TestDecidesLoop(x.g, x.k, q, fl)
    requires !Eval(x.g, TRep(q), x.s, i, n).Diverge?
    ensures Outcome(x, opt, fl, At(a, i, st), Eval(x.g, TRep(q), x.s, i, n),
                    a + Size(x, TRep(q), opt, tt, fl), st)
    decreases n, TRep(q), 0
  {
    hide Gen, Eval, WellFormed, Program.Holds, Program.Linked, Program.Joined, Joins, Step, GetFirst, HeadFail, CheckAux, FixedLenX,
      TestCode, TestOf, ChoiceByTest, ChoiceWithEntry, LoopByTest, LoopWithEntry, NotByTest, NotWithEntry, AndWithEntry;
    UnfoldRep(x.g, x.k, q, opt, tt, fl, x.s, i, n);
    UnfoldRep(x.g, x.k, q, opt, NoTest, fl, x.s, i, n);
    var f := GetFirst(x.g, x.k, q, FULLSET);
    var t := TestOf(f.cs, false);
    var c := Gen(x.g, x.k, q, false, t, FULLSET);
    LoopByTestParts(x, a, t, c);
    var start := At(a, i, st);
    var h := a + TestSize(t);
    var end := h + |c| + 2;
    var m1 := Eval(x.g, q, x.s, i, n);
    var m := Eval(x.g, TRep(q), x.s, i, n);
    TestCorrect(x, f.cs, false, end - a, a, i, st);
    GetFirstSound(x.g, x.k, q, FULLSET, x.s, i, n);
    if HeadFail(x.g, x.k, q) { HeadFailExact(x.g, x.k, q, x.s, i, n); }
    if NextIn(x.s, i, f.cs) {
      GenCorrect(x, q, false, t, FULLSET, h, i, st, n);
      OutcomeVia(x, false, FULLSET, start, At(h, i, st), m1, h + |c|, st);
      if m1.Match? {
        var e := At(h + |c|, m1.pos, st);
        RunJmp(x, h + |c|, a, m1.pos, st);
        Then(x, start, e, At(a, m1.pos, st));
        assert Gen(x.g, x.k, TRep(q), opt, NoTest, fl) == Gen(x.g, x.k, TRep(q), opt, tt, fl);
        GenCorrect(x, TRep(q), opt, NoTest, fl, a, m1.pos, st, n - 1);
        OutcomeVia(x, opt, fl, start, At(a, m1.pos, st), m, end, st);
      }
    } else {
      Arrives(x, opt, fl, start, i, end, st);
    }
  }

  lemma {:induction false} LoopWithEntryCorrect(
      x: Program, q: Tree, opt: bool, tt: Test, fl: Charset, a: int, i: nat, st: Stack, n: nat)
    requires Ready(x, TRep(q), opt, tt, fl, a, i, st)
    requires !IsCharPattern(q) && !TestDecidesLoop(x.g, x.k, q, fl)
    requires !Eval(x.g, TRep(q), x.s, i, n).Diverge?
    ensures Outcome(x, opt, fl, At(a, i, st), Eval(x.g, TRep(q), x.s, i, n),
                    a + Size(x, TRep(q), opt, tt, fl), st)
    decreases n, TRep(q), 0, 1
  {
    hide Gen, Eval, WellFormed, Program.Holds, Program.Linked, Program.Joined, Joins, Step, GetFirst, HeadFail, CheckAux, FixedLenX,
      TestCode, TestOf, ChoiceByTest, ChoiceWithEntry, LoopByTest, LoopWithEntry, NotByTest, NotWithEntry, AndWithEntry;
    UnfoldRep(x.g, x.k, q, opt, tt, fl, x.s, i, n);
    var f := GetFirst(x.g, x.k, q, FULLSET);
    var t := TestOf(f.cs, f.empty);
    var c := Gen(x.g, x.k, q, false, NoTest, FULLSET);
    LoopWithEntryParts(x, a, t, c, opt);
    var start := At(a, i, st);
    var h := a + TestSize(t);
    var end := h + |c| + 4;
    var m := Eval(x.g, TRep(q), x.s, i, n);
    TestCorrect(x, f.cs, f.empty, end - a, a, i, st);
    GetFirstSound(x.g, x.k, q, FULLSET, x.s, i, n);
    RepMatches(x.g, q, x.s, i, n);
    if f.empty || NextIn(x.s, i, f.cs) {
      var st1 := if opt then Retop(st, i) else st + [Back(i, end)];
      if opt { RunPartialCommit(x, h, h + 2, i, st); } else { RunChoice(x, h, end, i, st); }
      Then(x, start, At(h, i, st), At(h + 2, i, st1));
      LoopRuns(x, q, h + 2, i, st1, n);
      var stop := Backtrack(Retop(st1, m.pos));
      Then(x, start, At(h + 2, i, st1), stop);
      if opt {
        RetopTwice(st, i, m.pos);
      } else {
        BacktrackPushed(st, i, end, m.pos);
      }
    } else {
      Arrives(x, opt, fl, start, i, end, st);
    }
  }

  /** A repetition never fails. */
  lemma RepMatches(g: Rules, q: Tree, s: seq<byte>, i: nat, n: nat)
    requires i <= |s| && !Eval(g, TRep(q), s, i, n).Diverge?
    ensures Eval(g, TRep(q), s, i, n).Match?
  {
    NoFailSound(g, 0, TRep(q), s, i, n);
  }

  /** The loop of a repetition ends by backtracking to the entry on top of the stack, whose
      position is then where the repetition ends. */
  lemma {:induction false} LoopRuns(x: Program, q: Tree, b: int, i: nat, st: Stack, n: nat)
    requires x.Linked() && WellFormed(x.g, q) && i <= |x.s|
    requires st != [] && Top(st).Back? && Top(st).pos == i
    requires x.Holds(b, Gen(x.g, x.k, q, false, NoTest, FULLSET))
    requires Points(x, b + Size(x, q, false, NoTest, FULLSET), IPartialCommit, b)
    requires Eval(x.g, TRep(q), x.s, i, n).Match?
    ensures x.Joined(At(b, i, st), Backtrack(Retop(st, Eval(x.g, TRep(q), x.s, i, n).pos)))
    decreases n, TRep(q), 0, 0
  {
    hide Gen, Eval, WellFormed, Program.Holds, Program.Linked, Program.Joined, Joins, Step, GetFirst, HeadFail, CheckAux, FixedLenX,
      TestCode, TestOf, ChoiceByTest, ChoiceWithEntry, LoopByTest, LoopWithEntry, NotByTest, NotWithEntry, AndWithEntry;
    UnfoldRep(x.g, x.k, q, false, NoTest, FULLSET, x.s, i, n);
    var e := b + Size(x, q, false, NoTest, FULLSET);
    var m1 := Eval(x.g, q, x.s, i, n);
    var m := Eval(x.g, TRep(q), x.s, i, n);
    GenCorrect(x, q, false, NoTest, FULLSET, b, i, st, n);
    RetopTwice(st, i, i);
    if m1.Match? {
      var st1 := Retop(st, m1.pos);
      RunPartialCommit(x, e, b, m1.pos, st);
      Then(x, At(b, i, st), At(e, m1.pos, st), At(b, m1.pos, st1));
      RetopTwice(st, m1.pos, m.pos);
      LoopRuns(x, q, b, m1.pos, st1, n - 1);
      Then(x, At(b, i, st), At(b, m1.pos, st1), Backtrack(Retop(st, m.pos)));
    }
  }

  lemma {:induction false} NotCorrect(
      x: Program, q: Tree, opt: bool, tt: Test, fl: Charset, a: int, i: nat, st: Stack, n: nat)
    requires Ready(x, TNot(q), opt, tt, fl, a, i, st)
    requires !Eval(x.g, TNot(q), x.s, i, n).Diverge?
    ensures Outcome(x, opt, fl, At(a, i, st), Eval(x.g, TNot(q), x.s, i, n),
                    a + Size(x, TNot(q), opt, tt, fl), st)
    decreases n, TNot(q), 0
  {
    hide Gen, Eval, WellFormed, Program.Holds, Program.Linked, Program.Joined, Joins, Step, GetFirst, HeadFail, CheckAux, FixedLenX,
      TestCode, TestOf, ChoiceByTest, ChoiceWithEntry, LoopByTest, LoopWithEntry, NotByTest, NotWithEntry, AndWithEntry;
    UnfoldNot(x.g, x.k, q, opt, tt, fl, x.s, i, n);
    var f := GetFirst(x.g, x.k, q, FULLSET);
    var t := TestOf(f.cs, f.empty);
    var start := At(a, i, st);
    var end := a + Size(x, TNot(q), opt, tt, fl);
    var h := a + TestSize(t);
    var m := Eval(x.g, q, x.s, i, n);
    GetFirstSound(x.g, x.k, q, FULLSET, x.s, i, n);
    if HeadFail(x.g, x.k, q) {
      HeadFailExact(x.g, x.k, q, x.s, i, n);
      NotByTestParts(x, a, t);
    } else {
      NotWithEntryParts(x, a, t, Gen(x.g, x.k, q, false, NoTest, FULLSET));
    }
    TestCorrect(x, f.cs, f.empty, end - a, a, i, st);
    if !f.empty && !NextIn(x.s, i, f.cs) {
      Arrives(x, opt, fl, start, i, end, st);
    } else if HeadFail(x.g, x.k, q) {
      RunFail(x, h, i, st);
      Then(x, start, At(h, i, st), Backtrack(st));
    } else {
      var st1 := st + [Back(i, end)];
      RunChoice(x, h, end, i, st);
      Then(x, start, At(h, i, st), At(h + 2, i, st1));
      BacktrackPushed(st, i, end, i);
      GenCorrect(x, q, false, NoTest, FULLSET, h + 2, i, st1, n);
      OutcomeVia(x, false, FULLSET, start, At(h + 2, i, st1), m, end - 1, st1);
      if m.Match? {
        RunFailTwice(x, end - 1, m.pos, st1);
        Then(x, start, At(end - 1, m.pos, st1), Backtrack(st));
      } else {
        Arrives(x, opt, fl, start, i, end, st);
      }
    }
  }

  lemma {:induction false} AndCorrect(
      x: Program, q: Tree, opt: bool, tt: Test, fl: Charset, a: int, i: nat, st: Stack, n: nat)
    requires Ready(x, TAnd(q), opt, tt, fl, a, i, st)
    requires !Eval(x.g, TAnd(q), x.s, i, n).Diverge?
    ensures Outcome(x, opt, fl, At(a, i, st), Eval(x.g, TAnd(q), x.s, i, n),
                    a + Size(x, TAnd(q), opt, tt, fl), st)
    decreases n, TAnd(q), 0
  {
    hide Gen, Eval, WellFormed, Program.Holds, Program.Linked, Program.Joined, Joins, Step, GetFirst, HeadFail, CheckAux, FixedLenX,
      TestCode, TestOf, ChoiceByTest, ChoiceWithEntry, LoopByTest, LoopWithEntry, NotByTest, NotWithEntry, AndWithEntry;
    UnfoldAnd(x.g, x.k, q, opt, tt, fl, x.s, i, n);
    var len := FixedLen(x.g, q);
    var c := Gen(x.g, x.k, q, false, tt, FULLSET);
    var start := At(a, i, st);
    var m := Eval(x.g, q, x.s, i, n);
    if 0 <= len <= MAXBEHIND {
      HoldsSplit(x, a, c, BehindCode(len));
      GenCorrect(x, q, false, tt, FULLSET, a, i, st, n);
      if m.Match? {
        FixedLenSound(x.g, q, 0, 0, x.s, i, n);
        StepBack(x, len, a + |c|, start, m.pos, st);
        Arrives(x, opt, fl, start, i, a + |c| + |BehindCode(len)|, st);
      }
    } else {
      AndWithEntryParts(x, a, c);
      var b := a + 2 + |c|;
      var st1 := st + [Back(i, b + 2)];
      RunChoice(x, a, b + 2, i, st);
      BacktrackPushed(st, i, b + 2, i);
      GenCorrect(x, q, false, tt, FULLSET, a + 2, i, st1, n);
      OutcomeVia(x, false, FULLSET, start, At(a + 2, i, st1), m, b, st1);
      if m.Match? {
        RunBackCommit(x, b, b + 3, m.pos, st1);
        Then(x, start, At(b, m.pos, st1), At(b + 3, i, st));
        Arrives(x, opt, fl, start, i, b + 3, st);
      } else {
        RunFail(x, b + 2, i, st);
        Then(x, start, At(b + 2, i, st), Backtrack(st));
      }
    }
  }

  /** Stepping back over what was just consumed. */
  lemma StepBack(x: Program, len: nat, b: int, c: Config, j: nat, st: Stack)
    requires x.Holds(b, BehindCode(len)) && len <= j
    requires x.Joined(c, At(b, j, st))
    ensures x.Joined(c, At(b + |BehindCode(len)|, j - len, st))
  {
    if len > 0 {
      BehindParts(x, b, len);
      RunBehind(x, b, len, j, st);
      Then(x, c, At(b, j, st), At(b + 1, j - len, st));
    }
  }

  lemma {:induction false} BehindCorrect(
      x: Program, len: int, q: Tree, opt: bool, tt: Test, fl: Charset, a: int, i: nat, st: Stack, n: nat)
    requires Ready(x, TBehind(len, q), opt, tt, fl, a, i, st)
    requires !Eval(x.g, TBehind(len, q), x.s, i, n).Diverge?
    ensures Outcome(x, opt, fl, At(a, i, st), Eval(x.g, TBehind(len, q), x.s, i, n),
                    a + Size(x, TBehind(len, q), opt, tt, fl), st)
    decreases n, TBehind(len, q), 0
  {
    hide Gen, Eval, WellFormed, Program.Holds, Program.Linked, Program.Joined, Joins, Step, GetFirst, HeadFail, CheckAux, FixedLenX,
      TestCode, TestOf, ChoiceByTest, ChoiceWithEntry, LoopByTest, LoopWithEntry, NotByTest, NotWithEntry, AndWithEntry;
    UnfoldBehind(x.g, x.k, len, q, opt, tt, fl, x.s, i, n);
    var c := Gen(x.g, x.k, q, false, NoTest, FULLSET);
    var start := At(a, i, st);
    var end := a + Size(x, TBehind(len, q), opt, tt, fl);
    HoldsSplit(x, a, BehindCode(len), c);
    if len > 0 {
      BehindParts(x, a, len);
      RunBehind(x, a, len, i, st);
    } else {
      JoinsRefl(x.code, x.s, start);
    }
    if len <= i {
      var b := a + |BehindCode(len)|;
      var m := Eval(x.g, q, x.s, i - len, n);
      GenCorrect(x, q, false, NoTest, FULLSET, b, i - len, st, n);
      OutcomeVia(x, false, FULLSET, start, At(b, i - len, st), m, end, st);
      if m.Match? {
        FixedLenSound(x.g, q, 0, 0, x.s, i - len, n);
        Arrives(x, opt, fl, start, i, end, st);
      }
    }
  }

  /** A call runs the code of its rule and comes back; when nothing but a return was left, the jump
      that replaces it comes to the same. */
  lemma {:induction false} CallCorrect(
      x: Program, r: nat, opt: bool, tt: Test, fl: Charset, a: int, i: nat, st: Stack, n: nat)
    requires Ready(x, TCall(r), opt, tt, fl, a, i, st)
    requires !Eval(x.g, TCall(r), x.s, i, n).Diverge?
    ensures Outcome(x, opt, fl, At(a, i, st), Eval(x.g, TCall(r), x.s, i, n),
                    a + Size(x, TCall(r), opt, tt, fl), st)
    decreases n, TCall(r), 0
  {
    hide Gen, Eval, WellFormed, Program.Holds, Program.Linked, Program.Joined, Joins, Step, GetFirst, HeadFail, CheckAux, FixedLenX,
      TestCode, TestOf, ChoiceByTest, ChoiceWithEntry, LoopByTest, LoopWithEntry, NotByTest, NotWithEntry, AndWithEntry;
    UnfoldCall(x.g, x.k, r, opt, tt, fl, x.s, i, n);
    LinkedRule(x, r);
    var start := At(a, i, st);
    CallParts(x, a, r);
    var c := Gen(x.g, x.k, x.g[r], false, NoTest, FULLSET);
    HoldsSplit(x, x.at[r], c, [IRet]);
    HoldsOne(x, x.at[r] + |c|, IRet);
    var m := Eval(x.g, x.g[r], x.s, i, n - 1);
    var st1 := if x.code[a].ICall? then st + [Return(a + 2)] else st;
    RunCall(x, a, x.at[r], i, st);
    GenCorrect(x, x.g[r], false, NoTest, FULLSET, x.at[r], i, st1, n - 1);
    OutcomeVia(x, false, FULLSET, start, At(x.at[r], i, st1), m, x.at[r] + |c|, st1);
    if m.Match? {
      ComesBack(x, a, x.at[r] + |c|, m.pos, st);
      Then(x, start, At(x.at[r] + |c|, m.pos, st1), At(a + 2, m.pos, st));
      Arrives(x, opt, fl, start, m.pos, a + 2, st);
    } else if x.code[a].ICall? {
      PopPush(st, Return(a + 2));
    }
  }

  lemma LinkedRule(x: Program, r: nat)
    requires x.Linked() && r < |x.g|
    ensures r < |x.at| && WellFormed(x.g, x.g[r])
    ensures x.Holds(x.at[r], Gen(x.g, x.k, x.g[r], false, NoTest, FULLSET) + [IRet])
  {
  }

  /** Slot `a` calls the code at `l`, or jumps there with only a return left to do. */
  ghost predicate Calls(x: Program, a: int, l: int) {
    || Points(x, a, ICall, l)
    || (Points(x, a, IJmp, l) && EndsInRet(x.code, a + 2))
  }

  lemma CallParts(x: Program, a: int, r: nat)
    requires x.Holds(a, [IOpenCall(r), Hole])
    ensures r < |x.at| && Calls(x, a, x.at[r])
  {
    assert x.Fits(a + 0, [IOpenCall(r), Hole][0]);
  }

  lemma RunCall(x: Program, a: int, l: int, i: nat, st: Stack)
    requires Calls(x, a, l)
    ensures x.Joined(At(a, i, st), At(l, i, if x.code[a].ICall? then st + [Return(a + 2)] else st))
  {
    JoinsStep(x.code, x.s, At(a, i, st));
  }

  /** A rule that has reached its return is as good as back behind the call. */
  lemma ComesBack(x: Program, a: int, e: int, j: nat, st: Stack)
    requires 0 <= a < |x.code| && (x.code[a].ICall? || EndsInRet(x.code, a + 2))
    requires Has(x, e, IRet)
    ensures x.Joined(At(e, j, if x.code[a].ICall? then st + [Return(a + 2)] else st), At(a + 2, j, st))
  {
    if x.code[a].ICall? {
      PopPush(st, Return(a + 2));
      JoinsStep(x.code, x.s, At(e, j, st + [Return(a + 2)]));
    } else {
      var l: nat :| RetAfter(x.code, a + 2, l);
      var f := FinalTarget(x.code, a + 2, l);
      var after := Step(x.code, x.s, At(e, j, st));
      JumpsRun(x, a + 2, l, j, st);
      JoinsStep(x.code, x.s, At(f, j, st));
      Then(x, At(a + 2, j, st), At(f, j, st), after);
      JoinsSym(x.code, x.s, At(a + 2, j, st), after);
      JoinsStep(x.code, x.s, At(e, j, st));
      Then(x, At(e, j, st), after, At(a + 2, j, st));
    }
  }

  /** A chain of jumps that ends in a return does so wherever its code is put. */
  lemma {:induction false} ChainPlaced(r: Code, big: Code, b: nat, i: int, n: nat)
    requires b + |r| <= |big| && forall j :: 0 <= j < |r| ==> big[b + j] == r[j]
    requires RetAfter(r, i, n)
    ensures RetAfter(big, b + i, n)
    decreases n
  {
    if n > 0 && IsJump(r, i) {
      assert big[b + i] == r[i] && big[b + (i + 1)] == r[i + 1];
      ChainPlaced(r, big, b, Target(r, i), n - 1);
    } else {
      assert big[b + i] == r[i];
    }
  }

  /** The rules of a grammar in a program that holds its corrected code at `b`. */
  ghost function Inner(x: Program, p: Tree, b: int): Program
    requires p.TGrammar?
  {
    var ps := Positions(p, x.k, 0, 0);
    Program(p.rules, x.k, x.code, seq(|ps|, r requires 0 <= r < |ps| => b + ps[r]), x.s)
  }

  /** Where the corrected code `r` of rules `c` is in the program, `c` fits. */
  lemma FitsCorrected(x: Program, y: Program, b: int, c: Code, r: Code, ps: seq<nat>, j: nat)
    requires 0 <= b && j < |c| && x.Holds(b, r) && AllCorrected(c, r, ps)
    requires y.code == x.code && |y.at| == |ps| && forall q :: 0 <= q < |ps| ==> y.at[q] == b + ps[q]
    ensures y.Fits(b + j, c[j])
  {
    forall q | 0 <= q < |r| ensures b + q < |x.code| && x.code[b + q] == r[q] {
      assert Settled(r[q]) && x.Fits(b + q, r[q]);
    }
    assert Corrected(c, r, ps, j);
    if c[j].IOpenCall? {
      assert x.code[b + (j + 1)] == r[j + 1];
      if r[j].IJmp? {
        assert Settled(r[|r| - 1]) && b + |r| <= |x.code|;
        var n: nat :| RetAfter(r, j + 2, n);
        ChainPlaced(r, x.code, b, j + 2, n);
        assert RetAfter(x.code, b + j + 2, n);
      }
    }
  }

  /** The code of the rules is where their positions say. */
  lemma {:induction false} RulesPlaced(y: Program, p: Tree, b: int, r: nat, o: nat, q: nat)
    requires p.TGrammar? && r <= q < |p.rules|
    requires y.Holds(b, GenRules(p, y.k, r))
    ensures y.Holds(b + Positions(p, y.k, r, o)[q - r] - o,
                    Gen(p.rules, y.k, p.rules[q], false, NoTest, FULLSET) + [IRet])
    decreases q - r
  {
    hide Gen, GenRules, Positions, Program.Holds;
    UnfoldRules(p, y.k, r, o);
    var c := Gen(p.rules, y.k, p.rules[r], false, NoTest, FULLSET);
    HoldsSplit(y, b, c + [IRet], GenRules(p, y.k, r + 1));
    if r < q {
      RulesPlaced(y, p, b + |c| + 1, r + 1, o + |c| + 1, q);
    }
  }

  lemma InnerHolds(x: Program, p: Tree, b: int)
    requires p.TGrammar? && WellFormed(x.g, p)
    requires x.Holds(b, CorrectCalls(GenRules(p, x.k, 0), Positions(p, x.k, 0, 0), 0))
    ensures Inner(x, p, b).Holds(b, GenRules(p, x.k, 0))
  {
    hide Gen, GenRules, Positions, CorrectCalls, Program.Fits, AllCorrected, Neat, KeysBelow;
    var body := GenRules(p, x.k, 0);
    RulesKeys(p, x.k, 0);
    RulesNeat(p, x.k, 0);
    CorrectedSettled(body, Positions(p, x.k, 0, 0));
    var ps := Positions(p, x.k, 0, 0);
    forall j | 0 <= j < |body| ensures Inner(x, p, b).Fits(b + j, body[j]) {
      FitsCorrected(x, Inner(x, p, b), b, body, CorrectCalls(body, ps, 0), ps, j);
    }
  }

  lemma InnerLinked(x: Program, p: Tree, b: int)
    requires p.TGrammar? && WellFormed(x.g, p)
    requires x.Holds(b, CorrectCalls(GenRules(p, x.k, 0), Positions(p, x.k, 0, 0), 0))
    ensures Inner(x, p, b).Linked()
  {
    hide Gen, GenRules, Positions, CorrectCalls, Program.Holds;
    InnerHolds(x, p, b);
    var y := Inner(x, p, b);
    forall r | 0 <= r < |y.g|
      ensures y.Holds(y.at[r], Gen(y.g, y.k, y.g[r], false, NoTest, FULLSET) + [IRet])
    {
      RulesPlaced(y, p, b, 0, 0, r);
    }
  }

  lemma GrammarLayout(g: Rules, k: nat, p: Tree)
    requires p.TGrammar? && p.rules != []
    ensures var body := GenRules(p, k, 0);
            && Gen(g, k, p, false, NoTest, FULLSET)
               == GrammarHead(|body|) + CorrectCalls(body, Positions(p, k, 0, 0), 0)
            && body == Gen(p.rules, k, p.rules[0], false, NoTest, FULLSET) + [IRet] + GenRules(p, k, 1)
  {
  }

  /** What the code of a grammar is made of. */
  lemma GrammarParts(x: Program, p: Tree, a: int)
    requires p.TGrammar? && WellFormed(x.g, p)
    requires x.Holds(a, Gen(x.g, x.k, p, false, NoTest, FULLSET))
    ensures var end := a + |Gen(x.g, x.k, p, false, NoTest, FULLSET)|;
            var c := Gen(p.rules, x.k, p.rules[0], false, NoTest, FULLSET);
            var y := Inner(x, p, a + 4);
            && Points(x, a, ICall, a + 4) && Points(x, a + 2, IJmp, end)
            && y.Linked() && y.Holds(a + 4, c) && Has(x, a + 4 + |c|, IRet)
  {
    hide Program.Holds, Program.Linked, Gen, GenRules, CorrectCalls, Positions;
    GrammarLayout(x.g, x.k, p);
    var body := GenRules(p, x.k, 0);
    var r := CorrectCalls(body, Positions(p, x.k, 0, 0), 0);
    HoldsSplit(x, a, GrammarHead(|body|), r);
    GrammarHeadParts(x, a, |body|);
    InnerLinked(x, p, a + 4);
    InnerHolds(x, p, a + 4);
    var y := Inner(x, p, a + 4);
    var c := Gen(p.rules, x.k, p.rules[0], false, NoTest, FULLSET);
    HoldsSplit(y, a + 4, c + [IRet], GenRules(p, x.k, 1));
    HoldsSplit(y, a + 4, c, [IRet]);
    HoldsOne(y, a + 4 + |c|, IRet);
  }

  lemma {:induction false} GrammarCorrect(
      x: Program, p: Tree, opt: bool, tt: Test, fl: Charset, a: int, i: nat, st: Stack, n: nat)
    requires p.TGrammar? && Ready(x, p, opt, tt, fl, a, i, st)
    requires !Eval(x.g, p, x.s, i, n).Diverge?
    ensures Outcome(x, opt, fl, At(a, i, st), Eval(x.g, p, x.s, i, n), a + Size(x, p, opt, tt, fl), st)
    decreases n, p, 0
  {
    hide Gen, Eval, WellFormed, Program.Holds, Program.Linked, Program.Joined, Joins, Step, GetFirst, HeadFail, CheckAux, FixedLenX,
      TestCode, TestOf, ChoiceByTest, ChoiceWithEntry, LoopByTest, LoopWithEntry, NotByTest, NotWithEntry, AndWithEntry;
    UnfoldGrammar(x.g, x.k, p, opt, tt, fl, x.s, i, n);
    GrammarParts(x, p, a);
    var y := Inner(x, p, a + 4);
    var e := a + 4 + |Gen(p.rules, x.k, p.rules[0], false, NoTest, FULLSET)|;
    var end := a + Size(x, p, opt, tt, fl);
    var start := At(a, i, st);
    var m := Eval(p.rules, p.rules[0], x.s, i, n);
    var st1 := st + [Return(a + 2)];
    RunCall(x, a, a + 4, i, st);
    GenCorrect(y, p.rules[0], false, NoTest, FULLSET, a + 4, i, st1, n);
    OutcomeInner(x, y, start, At(a + 4, i, st1), m, e, st1);
    if m.Match? {
      ComesBack(x, a, e, m.pos, st);
      Then(x, start, At(e, m.pos, st1), At(a + 2, m.pos, st));
      RunJmp(x, a + 2, end, m.pos, st);
      Then(x, start, At(a + 2, m.pos, st), At(end, m.pos, st));
      Arrives(x, opt, fl, start, m.pos, end, st);
    } else {
      PopPush(st, Return(a + 2));
    }
  }

  lemma GrammarHeadParts(x: Program, a: int, size: nat)
    requires x.Holds(a, GrammarHead(size))
    ensures Points(x, a, ICall, a + 4) && Points(x, a + 2, IJmp, a + 4 + size)
  {
    var h := GrammarHead(size);
    assert x.Fits(a + 0, h[0]) && x.Fits(a + 1, h[1]) && x.Fits(a + 2, h[2]) && x.Fits(a + 3, h[3]);
  }

  /** Programs that differ in what they call rules run alike. */
  lemma OutcomeInner(x: Program, y: Program, c: Config, d: Config, a: Answer, b: int, st: Stack)
    requires x.code == y.code && x.s == y.s
    requires x.Joined(c, d) && Outcome(y, false, FULLSET, d, a, b, st)
    ensures Outcome(x, false, FULLSET, c, a, b, st)
  {
    assert Outcome(x, false, FULLSET, d, a, b, st);
    OutcomeVia(x, false, FULLSET, c, d, a, b, st);
  }

  // ---------------------------------------------------------------- whole programs

  /** The code of a whole pattern before jumps are optimized. */
  ghost function Compiled(k: nat, p: Tree): Code { Gen([], k, p, false, NoTest, FULLSET) + [IEnd] }

  /** A pattern on its own makes a program: there are no rules to link. */
  lemma CompiledHolds(k: nat, p: Tree, s: seq<byte>)
    requires WellFormed([], p)
    ensures var x := Program([], k, Compiled(k, p), [], s);
            var c := Gen([], k, p, false, NoTest, FULLSET);
            x.Linked() && x.Holds(0, c) && Has(x, |c|, IEnd)
  {
    hide Gen, WellFormed;
    GenKeys([], k, p, false, NoTest, FULLSET);
    var x := Program([], k, Compiled(k, p), [], s);
    var c := Gen([], k, p, false, NoTest, FULLSET);
    forall j | 0 <= j < |c| ensures x.Fits(0 + j, c[j]) { assert c[j] in c; }
  }

  /** Compiling preserves meaning: whenever matching a well-formed pattern has an answer, the machine
      running its code stops with that answer, on every subject and from every position. */
  lemma CompiledCorrect(k: nat, p: Tree, s: seq<byte>, i: nat, n: nat)
    requires WellFormed([], p) && i <= |s| && !Eval([], p, s, i, n).Diverge?
    ensures Answers(Compiled(k, p), s, i, Eval([], p, s, i, n))
  {
    hide Gen, Eval, WellFormed, Program.Holds, Program.Linked, Joins;
    CompiledHolds(k, p, s);
    var x := Program([], k, Compiled(k, p), [], s);
    var b := |Gen([], k, p, false, NoTest, FULLSET)|;
    var st := [Back(i, GIVEUP)];
    GenCorrect(x, p, false, NoTest, FULLSET, 0, i, st, n);
    var a := Eval([], p, s, i, n);
    var c := if a.Match? then At(b, a.pos, st) else At(GIVEUP, i, []);
    JoinsStep(x.code, s, c);
    Then(x, Initial(i), c, Done(a));
    var steps := JoinsDone(x.code, s, Initial(i), a);
  }
}
