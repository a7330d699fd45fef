/** What appending code and setting labels comes to, compared with the shapes of `PegCode`. */
module PegPatch {
  import opened PegTree
  import opened Seqs
  import opened PegAnalysis
  import opened PegCode

  /** No instruction to refer to. */
  const NOINST := -1

  /** The code of a pattern, to be used as a whole. */
  ghost function CodeOf(g: Rules, k: nat, p: Tree, opt: bool, tt: Test, fl: Charset): Code {
    Gen(g, k, p, opt, tt, fl)
  }

  /** What is known from the test instruction at slot `tt`. */
  function TestAt(code: Code, tt: int): Test {
    if tt < 0 || tt >= |code| then NoTest
    else match code[tt]
      case ITestChar(c) => OnChar(c)
      case ITestAny => OnAny
      case ITestSet => if tt + 2 < |code| && code[tt + 2].Buffer? then OnSet(code[tt + 2].cs) else NoTest
      case _ => OnNothing
  }

  predicate ValidTest(code: Code, tt: int) {
    tt < |code| && (tt >= 0 && code[tt].ITestSet? ==> tt + 2 < |code| && code[tt + 2].Buffer?)
  }

  lemma TestAtLater(code: Code, more: Code, tt: int)
    requires ValidTest(code, tt)
    ensures TestAt(code + more, tt) == TestAt(code, tt) && ValidTest(code + more, tt)
  {
  }

  lemma TestAtNew(code: Code, t: Test, d: int)
    requires !t.NoTest?
    ensures var c := code + TestCode(t, d); TestAt(c, |code|) == t && ValidTest(c, |code|)
  {
    assert (code + TestCode(t, d))[|code|] == TestCode(t, d)[0];
    if t.OnSet? { assert (code + TestCode(t, d))[|code| + 2] == TestCode(t, d)[2]; }
  }

  lemma Patch(a: Code, b: Code, c: Code, j: nat, x: Instr)
    requires j < |b|
    ensures (a + b + c)[|a| + j := x] == a + b[j := x] + c
  {
  }

  lemma PatchTest(t: Test, d: int)
    requires !t.NoTest?
    ensures TestCode(t, 0)[1 := Offset(d)] == TestCode(t, d)
  {
  }

  lemma AtNowhere(code: Code)
    ensures ValidTest(code, NOINST) && TestAt(code, NOINST) == NoTest
  {
  }

  // ---------------------------------------------------------------- patched code

  /** Code with the label at slot `i`, if there is one, set to `l`. */
  function SetLabel(c: Code, i: int, l: int): (r: Code)
    requires i + 1 < |c|
    ensures |r| == |c|
  {
    if i >= 0 then c[i + 1 := Offset(l - i)] else c
  }

  /** Code with the label at slot `i`, if there is one, set to its end. */
  function CloseLabel(c: Code, i: int): (r: Code)
    requires i < 0 || i + 1 < |c|
    ensures |r| == |c|
  {
    if i < 0 then c else SetLabel(c, i, |c|)
  }

  /** A test put in front, its label still open, then closed. */
  lemma TestPatched(a: Code, t: Test, rest: Code, d: int)
    requires !t.NoTest?
    ensures SetLabel(a + TestCode(t, 0) + rest, |a|, |a| + d) == a + TestCode(t, d) + rest
  {
    PatchTest(t, d);
    Patch(a, TestCode(t, 0), rest, 1, Offset(d));
  }

  lemma LabelSet(a: Code, op: Instr)
    ensures CloseLabel(a + [op, Offset(0)], |a|) == a + [op, Offset(2)]
  {
  }

  /** A label instruction between `a` and `rest`. */
  lemma LabelPatched(a: Code, op: Instr, rest: Code, e: int, d: int)
    ensures SetLabel(a + [op, Offset(e)] + rest, |a|, |a| + d) == a + [op, Offset(d)] + rest
  {
    Patch(a, [op, Offset(e)], rest, 1, Offset(d));
  }

  lemma ChoiceByTestPatched(a: Code, t: Test, c1: Code, c2: Code, empty: bool, jmp: int, b: Code, c: Code, r: Code)
    requires !t.NoTest? && (empty ==> c2 == [])
    requires b == a + TestCode(t, 0) + c1
    requires jmp == if empty then NOINST else |b|
    requires c == CloseLabel(b + (if empty then [] else [IJmp, Offset(0)]), |a|)
    requires r == CloseLabel(c + c2, jmp)
    ensures r == a + ChoiceByTest(t, c1, c2, empty)
  {
    hide TestCode, SetLabel;
    var j: Code := if empty then [] else [IJmp, Offset(0)];
    var t0 := TestCode(t, 0);
    var t1 := TestCode(t, TestSize(t) + |c1| + |j|);
    Assoc(a + t0, c1, j);
    TestPatched(a, t, c1 + j, TestSize(t) + |c1| + |j|);
    Assoc(a + t1, c1, j);
    if empty {
      assert c1 + j == c1 && t1 + c1 + j == t1 + c1 && t1 + c1 + j + c2 == t1 + c1;
      assert c + c2 == c;
      Assoc(a, t1, c1);
    } else {
      LabelPatched(a + t1 + c1, IJmp, c2, 0, 2 + |c2|);
      Assoc5(a, t1, c1, [IJmp, Offset(2 + |c2|)], c2);
    }
  }

  lemma ChoiceWithEntryPatched(a: Code, t: Test, c1: Code, c2: Code, test: int, b: Code, c: Code, r: Code)
    requires b == a + TestCode(t, 0) + [IChoice, Offset(0)] + c1 + [ICommit, Offset(0)]
    requires test == if t.NoTest? then NOINST else |a|
    requires c == CloseLabel(CloseLabel(b, |a| + TestSize(t)), test)
    requires r == CloseLabel(c + c2, |b| - 2)
    ensures r == a + ChoiceWithEntry(t, c1, c2)
  {
    var d := |c1| + 4;
    var t0 := TestCode(t, 0);
    var t1 := TestCode(t, TestSize(t) + d);
    assert t.NoTest? ==> t0 == t1;
    hide TestCode, SetLabel;
    var cm: Code := [ICommit, Offset(0)];
    var ch: Code := [IChoice, Offset(d)];
    Assoc(a + t0 + [IChoice, Offset(0)], c1, cm);
    LabelPatched(a + t0, IChoice, c1 + cm, 0, d);
    Assoc(a + t0, ch, c1 + cm);
    if !t.NoTest? { TestPatched(a, t, ch + (c1 + cm), TestSize(t) + d); }
    Assoc(a + t1, ch, c1 + cm);
    Assoc(a + t1 + ch, c1, cm);
    LabelPatched(a + t1 + ch + c1, ICommit, c2, 0, 2 + |c2|);
    Assoc6(a, t1, ch, c1, [ICommit, Offset(2 + |c2|)], c2);
  }

  lemma LoopByTestPatched(a: Code, t: Test, c: Code, b: Code, r: Code)
    requires !t.NoTest?
    requires b == a + TestCode(t, 0) + c + [IJmp, Offset(0)]
    requires r == SetLabel(CloseLabel(b, |a|), |b| - 2, |a|)
    ensures r == a + LoopByTest(t, c)
  {
    hide TestCode, SetLabel;
    var d := TestSize(t) + |c| + 2;
    var t1 := TestCode(t, d);
    Assoc(a + TestCode(t, 0), c, [IJmp, Offset(0)]);
    TestPatched(a, t, c + [IJmp, Offset(0)], d);
    Assoc(a + t1, c, [IJmp, Offset(0)]);
    AddNothing(a + t1 + c + [IJmp, Offset(0)]);
    LabelPatched(a + t1 + c, IJmp, [], 0, -(TestSize(t) + |c|));
    AddNothing(a + t1 + c + [IJmp, Offset(-(TestSize(t) + |c|))]);
    Assoc4(a, t1, c, [IJmp, Offset(-(TestSize(t) + |c|))]);
  }

  lemma AddNothing(a: Code)
    ensures a + [] == a
  {
  }

  /** How a loop with an entry begins, its label still open. */
  function LoopEntry(opt: bool): (r: Code)
    ensures |r| == 2
  {
    if opt then [IPartialCommit, Offset(2)] else [IChoice, Offset(0)]
  }

  lemma LoopWithEntryPatched(a: Code, t: Test, c: Code, opt: bool, test: int, entry: int, b: Code, r: Code)
    requires b == a + TestCode(t, 0) + LoopEntry(opt) + c + [IPartialCommit, Offset(0)]
    requires test == if t.NoTest? then NOINST else |a|
    requires if opt then entry < 0 else entry == |a| + TestSize(t)
    requires r == CloseLabel(CloseLabel(SetLabel(b, |b| - 2, |a| + TestSize(t) + 2), entry), test)
    ensures r == a + LoopWithEntry(t, c, opt)
  {
    var d := TestSize(t) + |c| + 4;
    var t0 := TestCode(t, 0);
    var t1 := TestCode(t, d);
    assert t.NoTest? ==> t0 == t1;
    hide TestCode, SetLabel;
    var e := LoopEntry(opt);
    var e2: Code := if opt then [IPartialCommit, Offset(2)] else [IChoice, Offset(|c| + 4)];
    var pc: Code := [IPartialCommit, Offset(-|c|)];
    var h := |a| + TestSize(t);
    AddNothing(b);
    LabelPatched(a + t0 + e + c, IPartialCommit, [], 0, -|c|);
    AddNothing(a + t0 + e + c + pc);
    Assoc(a + t0 + e, c, pc);
    if !opt { LabelPatched(a + t0, IChoice, c + pc, 0, |c| + 4); }
    Assoc(a + t0, e2, c + pc);
    if !t.NoTest? { TestPatched(a, t, e2 + (c + pc), d); }
    Assoc(a + t1, e2, c + pc);
    Assoc(a + t1 + e2, c, pc);
    Assoc5(a, t1, e2, c, pc);
  }

  lemma NotByTestPatched(a: Code, t: Test, test: int, b: Code, r: Code)
    requires b == a + TestCode(t, 0) + [IFail]
    requires test == if t.NoTest? then NOINST else |a|
    requires r == CloseLabel(b, test)
    ensures r == a + NotByTest(t)
  {
    var t1 := TestCode(t, TestSize(t) + 1);
    assert t.NoTest? ==> TestCode(t, 0) == t1;
    hide TestCode, SetLabel;
    if !t.NoTest? { TestPatched(a, t, [IFail], TestSize(t) + 1); }
    Assoc(a, t1, [IFail]);
  }

  lemma NotWithEntryPatched(a: Code, t: Test, c: Code, test: int, b: Code, r: Code)
    requires b == a + TestCode(t, 0) + [IChoice, Offset(0)] + c + [IFailTwice]
    requires test == if t.NoTest? then NOINST else |a|
    requires r == CloseLabel(CloseLabel(b, |a| + TestSize(t)), test)
    ensures r == a + NotWithEntry(t, c)
  {
    var d := |c| + 3;
    var t0 := TestCode(t, 0);
    var t1 := TestCode(t, TestSize(t) + d);
    assert t.NoTest? ==> t0 == t1;
    hide TestCode, SetLabel;
    var ch: Code := [IChoice, Offset(d)];
    Assoc(a + t0 + [IChoice, Offset(0)], c, [IFailTwice]);
    LabelPatched(a + t0, IChoice, c + [IFailTwice], 0, d);
    Assoc(a + t0, ch, c + [IFailTwice]);
    if !t.NoTest? { TestPatched(a, t, ch + (c + [IFailTwice]), TestSize(t) + d); }
    Assoc(a + t1, ch, c + [IFailTwice]);
    Assoc(a + t1 + ch, c, [IFailTwice]);
    Assoc5(a, t1, ch, c, [IFailTwice]);
  }

  lemma AndWithEntryPatched(a: Code, c: Code, b: Code, r: Code)
    requires b == a + [IChoice, Offset(0)] + c + [IBackCommit, Offset(0)]
    requires r == CloseLabel(CloseLabel(b, |a|) + [IFail], |b| - 2)
    ensures r == a + AndWithEntry(c)
  {
    hide SetLabel;
    var ch: Code := [IChoice, Offset(|c| + 4)];
    var bc: Code := [IBackCommit, Offset(0)];
    Assoc(a + [IChoice, Offset(0)], c, bc);
    LabelPatched(a, IChoice, c + bc, 0, |c| + 4);
    Assoc(a + ch, c, bc);
    LabelPatched(a + ch + c, IBackCommit, [IFail], 0, 3);
    Assoc(a + ch + c, [IBackCommit, Offset(3)], [IFail]);
    assert [IBackCommit, Offset(3)] + [IFail] == [IBackCommit, Offset(3), IFail];
    Assoc4(a, ch, c, [IBackCommit, Offset(3), IFail]);
  }

  /** What `Gen` is for the patterns that need no code shape. */
  lemma UnfoldGen(g: Rules, k: nat, p: Tree, opt: bool, tt: Test, fl: Charset)
    ensures var r := CodeOf(g, k, p, opt, tt, fl);
            && (p.TChar? ==> r == CharCode(p.c, tt))
            && (p.TAny? ==> r == [IAny])
            && (p.TSet? ==> r == CharsetCode(p.cs, tt))
            && (p.TTrue? ==> r == [])
            && (p.TFalse? ==> r == [IFail])
            && (p.TCall? ==> r == [IOpenCall(RuleKey(p.rule)), Hole])
            && (p.TSeq? ==> r == CodeOf(g, k, p.p1, false, tt, FollowOf(g, k, p.p1, p.p2, fl))
                                 + CodeOf(g, k, p.p2, opt, SecondTest(g, p.p1, tt), fl))
            && (p.TGrammar? ==> r == CodeOf(g, k, p, false, NoTest, FULLSET))
  {
  }

  lemma UnfoldGenChoice(g: Rules, k: nat, p1: Tree, p2: Tree, opt: bool, tt: Test, fl: Charset)
    ensures var f1 := GetFirst(g, k, p1, FULLSET);
            var t := TestOf(f1.cs, false);
            var u := TestOf(f1.cs, f1.empty);
            var c2 := CodeOf(g, k, p2, opt, NoTest, fl);
            CodeOf(g, k, TChoice(p1, p2), opt, tt, fl) == (
              if TestDecides(g, k, p1, p2, fl) then ChoiceByTest(t, CodeOf(g, k, p1, false, t, fl), c2, p2.TTrue?)
              else if opt && p2.TTrue? then [IPartialCommit, Offset(2)] + CodeOf(g, k, p1, true, NoTest, FULLSET)
              else ChoiceWithEntry(u, CodeOf(g, k, p1, p2.TTrue?, u, FULLSET), c2))
    ensures p2.TTrue? ==> CodeOf(g, k, p2, opt, NoTest, fl) == []
  {
  }

  lemma UnfoldGenRep(g: Rules, k: nat, q: Tree, opt: bool, tt: Test, fl: Charset)
    ensures var f := GetFirst(g, k, q, FULLSET);
            var t := TestOf(f.cs, false);
            CodeOf(g, k, TRep(q), opt, tt, fl) == (
              if IsCharPattern(q) then [ISpan, Buffer(ToCharset(q))]
              else if TestDecidesLoop(g, k, q, fl) then LoopByTest(t, CodeOf(g, k, q, false, t, FULLSET))
              else LoopWithEntry(TestOf(f.cs, f.empty), CodeOf(g, k, q, false, NoTest, FULLSET), opt))
  {
  }

  lemma UnfoldGenNot(g: Rules, k: nat, q: Tree, opt: bool, tt: Test, fl: Charset)
    ensures var f := GetFirst(g, k, q, FULLSET);
            var t := TestOf(f.cs, f.empty);
            CodeOf(g, k, TNot(q), opt, tt, fl) == (
              if HeadFail(g, k, q) then NotByTest(t) else NotWithEntry(t, CodeOf(g, k, q, false, NoTest, FULLSET)))
  {
  }

  lemma UnfoldGenAnd(g: Rules, k: nat, q: Tree, opt: bool, tt: Test, fl: Charset)
    ensures var n := FixedLen(g, q);
            var c := CodeOf(g, k, q, false, tt, FULLSET);
            CodeOf(g, k, TAnd(q), opt, tt, fl) == (
              if 0 <= n <= MAXBEHIND then c + BehindCode(n) else AndWithEntry(c))
  {
  }

  lemma UnfoldGenBehind(g: Rules, k: nat, n: int, q: Tree, opt: bool, tt: Test, fl: Charset)
    ensures CodeOf(g, k, TBehind(n, q), opt, tt, fl) == BehindCode(n) + CodeOf(g, k, q, false, NoTest, FULLSET)
  {
  }
}
