/** The layout of generated code, and what turning its open calls into calls or jumps does. */
module PegLink {
  import opened PegTree
  import opened PegAnalysis
  import opened PegCode

  predicate IsData(x: Instr) { x.Offset? || x.Buffer? || x.Hole? }

  /** Instructions that carry a label. */
  predicate TakesLabel(x: Instr) {
    || x.ITestAny? || x.ITestChar? || x.ITestSet? || x.IChoice? || x.IJmp? || x.ICall?
    || x.ICommit? || x.IPartialCommit? || x.IBackCommit?
  }

  /** The instruction at `j`, if there is one, has the slots that belong to it; a hole follows an
      open call. */
  predicate SlotNeat(c: Code, j: nat)
    requires j < |c|
  {
    && (c[j].Hole? ==> j > 0 && c[j - 1].IOpenCall?)
    && (c[j].IOpenCall? ==> j + 1 < |c| && c[j + 1].Hole?)
    && (TakesLabel(c[j]) ==> j + 1 < |c| && c[j + 1].Offset?)
    && (c[j].ISet? || c[j].ISpan? ==> j + 1 < |c| && c[j + 1].Buffer?)
    && (c[j].ITestSet? ==> j + 2 < |c| && c[j + 2].Buffer?)
  }

  ghost predicate Neat(c: Code) {
    forall j :: 0 <= j < |c| ==> SlotNeat(c, j)
  }

  lemma NeatConcat(u: Code, v: Code)
    requires Neat(u) && Neat(v)
    ensures Neat(u + v)
  {
    var c := u + v;
    forall j | 0 <= j < |c| ensures SlotNeat(c, j) {
      if j < |u| { assert SlotNeat(u, j); } else { assert SlotNeat(v, j - |u|); }
    }
  }

  lemma Neat3(a: Code, b: Code, c: Code)
    requires Neat(a) && Neat(b) && Neat(c)
    ensures Neat(a + b + c)
  {
    NeatConcat(a, b);
    NeatConcat(a + b, c);
  }

  lemma Neat4(a: Code, b: Code, c: Code, d: Code)
    requires Neat(a) && Neat(b) && Neat(c) && Neat(d)
    ensures Neat(a + b + c + d)
  {
    Neat3(a, b, c);
    NeatConcat(a + b + c, d);
  }

  lemma NeatTest(t: Test, d: int)
    ensures Neat(TestCode(t, d))
  {
  }

  /** An instruction of one slot, or none. */
  lemma NeatOne(x: Instr)
    requires !IsData(x) && SizeI(x) == 1
    ensures Neat([x]) && Neat([])
  {
  }

  /** An instruction with a label. */
  lemma NeatLabel(x: Instr, d: int)
    requires TakesLabel(x) && !x.ITestSet?
    ensures Neat([x, Offset(d)])
  {
  }

  lemma NeatLeaf(g: Rules, k: nat, p: Tree, opt: bool, tt: Test, fl: Charset)
    requires IsCharPattern(p) || p.TTrue? || p.TFalse? || p.TCall?
    ensures Neat(Gen(g, k, p, opt, tt, fl))
  {
  }

  lemma NeatChoice(t: Test, c1: Code, c2: Code, emptyp2: bool)
    requires Neat(c1) && Neat(c2)
    ensures Neat(ChoiceByTest(t, c1, c2, emptyp2)) && Neat(ChoiceWithEntry(t, c1, c2))
  {
    hide Neat;
    NeatOne(IAny);
    NeatLabel(IJmp, 2 + |c2|);
    NeatLabel(IChoice, |c1| + 4);
    NeatLabel(ICommit, 2 + |c2|);
    var jmp := if emptyp2 then [] else [IJmp, Offset(2 + |c2|)];
    NeatTest(t, TestSize(t) + |c1| + |jmp|);
    Neat4(TestCode(t, TestSize(t) + |c1| + |jmp|), c1, jmp, c2);
    var u := TestCode(t, TestSize(t) + |c1| + 4);
    NeatTest(t, TestSize(t) + |c1| + 4);
    Neat4(u, [IChoice, Offset(|c1| + 4)], c1, [ICommit, Offset(2 + |c2|)]);
    NeatConcat(u + [IChoice, Offset(|c1| + 4)] + c1 + [ICommit, Offset(2 + |c2|)], c2);
  }

  lemma NeatLoop(t: Test, c: Code, opt: bool)
    requires Neat(c)
    ensures Neat(LoopByTest(t, c)) && Neat(LoopWithEntry(t, c, opt))
  {
    hide Neat;
    NeatTest(t, TestSize(t) + |c| + 2);
    NeatLabel(IJmp, -(TestSize(t) + |c|));
    Neat3(TestCode(t, TestSize(t) + |c| + 2), c, [IJmp, Offset(-(TestSize(t) + |c|))]);
    NeatTest(t, TestSize(t) + |c| + 4);
    NeatLabel(IPartialCommit, 2);
    NeatLabel(IChoice, |c| + 4);
    NeatLabel(IPartialCommit, -|c|);
    Neat4(TestCode(t, TestSize(t) + |c| + 4),
          if opt then [IPartialCommit, Offset(2)] else [IChoice, Offset(|c| + 4)],
          c, [IPartialCommit, Offset(-|c|)]);
  }

  lemma NeatPredicate(t: Test, c: Code, n: int)
    requires Neat(c)
    ensures Neat(NotByTest(t)) && Neat(NotWithEntry(t, c)) && Neat(AndWithEntry(c)) && Neat(BehindCode(n))
  {
    NeatAndTail();
    hide Neat;
    NeatTest(t, TestSize(t) + 1);
    NeatOne(IFail);
    NeatConcat(TestCode(t, TestSize(t) + 1), [IFail]);
    NeatTest(t, TestSize(t) + |c| + 3);
    NeatLabel(IChoice, |c| + 3);
    NeatOne(IFailTwice);
    Neat4(TestCode(t, TestSize(t) + |c| + 3), [IChoice, Offset(|c| + 3)], c, [IFailTwice]);
    NeatLabel(IChoice, |c| + 4);
    Neat3([IChoice, Offset(|c| + 4)], c, [IBackCommit, Offset(3), IFail]);
    NeatOne(if n > 0 then IBehind(n) else IAny);
  }

  lemma NeatAndTail()
    ensures Neat([IBackCommit, Offset(3), IFail])
  {
  }

  lemma NeatGrammarHead(size: nat)
    ensures Neat(GrammarHead(size))
  {
  }

  lemma NeatSpan(cs: Charset)
    ensures Neat([ISpan, Buffer(cs)])
  {
  }

  /** Generated code is neat. */
  lemma {:induction false} GenNeat(g: Rules, k: nat, p: Tree, opt: bool, tt: Test, fl: Charset)
    ensures Neat(Gen(g, k, p, opt, tt, fl))
    decreases p, 2
  {
    hide Neat;
    match p
    case TSeq(p1, p2) =>
      GenNeat(g, k, p1, false, tt, FollowOf(g, k, p1, p2, fl));
      GenNeat(g, k, p2, opt, SecondTest(g, p1, tt), fl);
      NeatConcat(Gen(g, k, p1, false, tt, FollowOf(g, k, p1, p2, fl)),
                 Gen(g, k, p2, opt, SecondTest(g, p1, tt), fl));
    case TChoice(p1, p2) =>
      var f1 := GetFirst(g, k, p1, FULLSET);
      GenNeat(g, k, p2, opt, NoTest, fl);
      if TestDecides(g, k, p1, p2, fl) {
        var t := TestOf(f1.cs, false);
        GenNeat(g, k, p1, false, t, fl);
        NeatChoice(t, Gen(g, k, p1, false, t, fl), Gen(g, k, p2, opt, NoTest, fl), p2.TTrue?);
      } else if opt && p2.TTrue? {
        GenNeat(g, k, p1, true, NoTest, FULLSET);
        NeatLabel(IPartialCommit, 2);
        NeatConcat([IPartialCommit, Offset(2)], Gen(g, k, p1, true, NoTest, FULLSET));
      } else {
        var t := TestOf(f1.cs, f1.empty);
        GenNeat(g, k, p1, p2.TTrue?, t, FULLSET);
        NeatChoice(t, Gen(g, k, p1, p2.TTrue?, t, FULLSET), Gen(g, k, p2, opt, NoTest, fl), p2.TTrue?);
      }
    case TRep(q) =>
      var f := GetFirst(g, k, q, FULLSET);
      if IsCharPattern(q) {
        NeatSpan(ToCharset(q));
      } else if TestDecidesLoop(g, k, q, fl) {
        var t := TestOf(f.cs, false);
        GenNeat(g, k, q, false, t, FULLSET);
        NeatLoop(t, Gen(g, k, q, false, t, FULLSET), opt);
      } else {
        GenNeat(g, k, q, false, NoTest, FULLSET);
        NeatLoop(TestOf(f.cs, f.empty), Gen(g, k, q, false, NoTest, FULLSET), opt);
      }
    case TNot(q) =>
      var f := GetFirst(g, k, q, FULLSET);
      GenNeat(g, k, q, false, NoTest, FULLSET);
      NeatPredicate(TestOf(f.cs, f.empty), Gen(g, k, q, false, NoTest, FULLSET), 0);
    case TAnd(q) =>
      var c := Gen(g, k, q, false, tt, FULLSET);
      GenNeat(g, k, q, false, tt, FULLSET);
      NeatPredicate(NoTest, c, FixedLen(g, q));
      NeatConcat(c, BehindCode(FixedLen(g, q)));
    case TBehind(n, q) =>
      GenNeat(g, k, q, false, NoTest, FULLSET);
      NeatPredicate(NoTest, Gen(g, k, q, false, NoTest, FULLSET), n);
      NeatConcat(BehindCode(n), Gen(g, k, q, false, NoTest, FULLSET));
    case TGrammar(rs) =>
      var body := GenRules(p, k, 0);
      RulesNeat(p, k, 0);
      CorrectedNeat(body, Positions(p, k, 0, 0), 0);
      NeatGrammarHead(|body|);
      NeatConcat(GrammarHead(|body|), CorrectCalls(body, Positions(p, k, 0, 0), 0));
    case _ => NeatLeaf(g, k, p, opt, tt, fl);
  }

  lemma {:induction false} RulesNeat(p: Tree, k: nat, r: nat)
    requires p.TGrammar? && r <= |p.rules|
    ensures Neat(GenRules(p, k, r))
    decreases p, 1, |p.rules| - r
  {
    hide Neat;
    NeatOne(IRet);
    if r < |p.rules| {
      GenNeat(p.rules, k, p.rules[r], false, NoTest, FULLSET);
      RulesNeat(p, k, r + 1);
      Neat3(Gen(p.rules, k, p.rules[r], false, NoTest, FULLSET), [IRet], GenRules(p, k, r + 1));
    }
  }

  // ---------------------------------------------------------------- calls

  /** Slots that turning open calls into calls does not touch. */
  predicate Settled(x: Instr) { !x.IOpenCall? && !x.Hole? }

  ghost predicate SameSettled(c: Code, r: Code) {
    |c| == |r| && forall j :: 0 <= j < |c| && Settled(c[j]) ==> r[j] == c[j]
  }

  /** A chain of jumps that ends in a return does so still after other slots have changed. */
  lemma {:induction false} ChainKept(c: Code, r: Code, i: int, n: nat)
    requires SameSettled(c, r)
    requires var f := FinalTarget(c, i, n); 0 <= f < |c| && c[f].IRet?
    ensures FinalTarget(r, i, n) == FinalTarget(c, i, n)
    ensures var f := FinalTarget(c, i, n); r[f].IRet?
    decreases n
  {
    if n > 0 && IsJump(c, i) {
      ChainKept(c, r, Target(c, i), n - 1);
    }
  }

  lemma EndsInRetKept(c: Code, r: Code, i: int)
    requires SameSettled(c, r) && EndsInRet(c, i)
    ensures EndsInRet(r, i)
  {
    var n: nat :| RetAfter(c, i, n);
    ChainKept(c, r, i, n);
    assert RetAfter(r, i, n);
  }

  /** What has become of slot `j` of `c`: an open call is a call to its position, or a jump there
      when the chain behind it returns; every other slot, its offset apart, is the same. */
  ghost predicate Corrected(c: Code, r: Code, positions: seq<nat>, j: nat)
    requires |c| == |r| && j < |c|
  {
    if c[j].IOpenCall? then
      && j + 1 < |c| && c[j].key < |positions|
      && r[j + 1] == Offset(positions[c[j].key] - j)
      && (r[j].ICall? || (r[j].IJmp? && EndsInRet(r, j + 2)))
    else c[j].Hole? || r[j] == c[j]
  }

  /** Below `i` nothing changes. */
  lemma {:induction false} CorrectCallsSame(c: Code, positions: seq<nat>, i: nat)
    ensures var r := CorrectCalls(c, positions, i);
            forall j :: 0 <= j < |c| && j < i ==> r[j] == c[j]
    decreases |c| - i
  {
    if i >= |c| {
    } else if c[i].IOpenCall? && i + 1 < |c| && c[i].key < |positions| {
      var call := if EndsInRet(c, i + 2) then IJmp else ICall;
      CorrectCallsSame(c[i := call][i + 1 := Offset(positions[c[i].key] - i)], positions, i + 2);
    } else {
      CorrectCallsSame(c, positions, i + SizeI(c[i]));
    }
  }

  /** The slots from `i` on have their shape, whatever is before them. */
  ghost predicate NeatFrom(c: Code, i: nat) {
    forall j :: i <= j < |c| ==> SlotNeat(c, j)
  }

  /** Rule numbers in open calls are numbers of rules. */
  ghost predicate KeysBelow(c: Code, n: nat) {
    forall x :: x in c && x.IOpenCall? ==> x.key < n
  }

  ghost predicate KeysInRange(c: Code, n: nat) {
    forall j :: 0 <= j < |c| && c[j].IOpenCall? ==> c[j].key < n
  }

  /** `c` with the call at `i` corrected. */
  ghost function CorrectOne(c: Code, positions: seq<nat>, i: nat): (r: Code)
    requires i + 1 < |c| && c[i].IOpenCall? && c[i].key < |positions|
  {
    var call := if EndsInRet(c, i + 2) then IJmp else ICall;
    c[i := call][i + 1 := Offset(positions[c[i].key] - i)]
  }

  lemma CorrectOneKeeps(c: Code, positions: seq<nat>, i: nat)
    requires i + 1 < |c| && c[i].IOpenCall? && c[i].key < |positions|
    requires NeatFrom(c, i) && KeysInRange(c, |positions|)
    ensures var c' := CorrectOne(c, positions, i);
            NeatFrom(c', i + 2) && KeysInRange(c', |positions|) && SameSettled(c, c')
  {
    hide EndsInRet;
    var c' := CorrectOne(c, positions, i);
    assert SlotNeat(c, i);
    forall j | i + 2 <= j < |c| ensures SlotNeat(c', j) { assert SlotNeat(c, j) && SlotNeat(c, i + 1); }
  }

  lemma {:induction false} CorrectCallsShape(c: Code, positions: seq<nat>, i: nat)
    requires i <= |c| && NeatFrom(c, i)
    requires KeysInRange(c, |positions|)
    ensures var r := CorrectCalls(c, positions, i);
            && SameSettled(c, r)
            && forall j :: i <= j < |c| ==> Corrected(c, r, positions, j)
    decreases |c| - i
  {
    hide FinalTarget, EndsInRet;
    var r := CorrectCalls(c, positions, i);
    if i < |c| {
      assert SlotNeat(c, i);
      var n := SizeI(c[i]);
      if c[i].IOpenCall? {
        var c' := CorrectOne(c, positions, i);
        CorrectOneKeeps(c, positions, i);
        CorrectCallsShape(c', positions, i + 2);
        CorrectCallsSame(c', positions, i + 2);
        if EndsInRet(c, i + 2) { EndsInRetKept(c, r, i + 2); }
        forall j | i + 2 <= j < |c| ensures Corrected(c, r, positions, j) {
          assert Corrected(c', r, positions, j);
        }
      } else {
        CorrectCallsShape(c, positions, i + n);
        CorrectCallsSame(c, positions, i + n);
        forall j | i <= j < i + n && j < |c| ensures Corrected(c, r, positions, j) {
        }
      }
    }
  }

  lemma {:induction false} CorrectedNeat(c: Code, positions: seq<nat>, i: nat)
    requires Neat(c)
    ensures Neat(CorrectCalls(c, positions, i))
    decreases |c| - i
  {
    if i >= |c| {
    } else if c[i].IOpenCall? && i + 1 < |c| && c[i].key < |positions| {
      var call := if EndsInRet(c, i + 2) then IJmp else ICall;
      var c' := c[i := call][i + 1 := Offset(positions[c[i].key] - i)];
      assert Neat(c') by {
        assert SlotNeat(c, i);
        forall j | 0 <= j < |c'| ensures SlotNeat(c', j) {
          assert SlotNeat(c, j);
          if j + 2 < |c| { assert SlotNeat(c, j + 1) && SlotNeat(c, j + 2); }
        }
      }
      CorrectedNeat(c', positions, i + 2);
    } else {
      CorrectedNeat(c, positions, i + SizeI(c[i]));
    }
  }

  // ---------------------------------------------------------------- rule numbers

  lemma KeysTest(t: Test, d: int, n: nat)
    ensures KeysBelow(TestCode(t, d), n)
  {
  }

  lemma KeysChoice(t: Test, c1: Code, c2: Code, empty: bool, n: nat)
    requires KeysBelow(c1, n) && KeysBelow(c2, n)
    ensures KeysBelow(ChoiceByTest(t, c1, c2, empty), n) && KeysBelow(ChoiceWithEntry(t, c1, c2), n)
  {
    hide TestCode;
    KeysTest(t, TestSize(t) + |c1| + (if empty then 0 else 2), n);
    KeysTest(t, TestSize(t) + |c1| + 4, n);
  }

  lemma KeysLoop(t: Test, c: Code, opt: bool, n: nat)
    requires KeysBelow(c, n)
    ensures KeysBelow(LoopByTest(t, c), n) && KeysBelow(LoopWithEntry(t, c, opt), n)
  {
    hide TestCode;
    KeysTest(t, TestSize(t) + |c| + 2, n);
    KeysTest(t, TestSize(t) + |c| + 4, n);
  }

  lemma KeysPredicate(t: Test, c: Code, len: int, n: nat)
    requires KeysBelow(c, n)
    ensures KeysBelow(NotByTest(t), n) && KeysBelow(NotWithEntry(t, c), n) && KeysBelow(AndWithEntry(c), n)
    ensures KeysBelow(c + BehindCode(len), n) && KeysBelow(BehindCode(len) + c, n)
  {
    hide TestCode;
    KeysTest(t, TestSize(t) + 1, n);
    KeysTest(t, TestSize(t) + |c| + 3, n);
  }

  /** The open calls in the code of a well-formed pattern call rules of its grammar. */
  lemma {:induction false} GenKeys(g: Rules, k: nat, p: Tree, opt: bool, tt: Test, fl: Charset)
    requires WellFormed(g, p)
    ensures KeysBelow(Gen(g, k, p, opt, tt, fl), |g|)
    decreases p, 2
  {
    hide GetFirst, HeadFail, CheckAux, FixedLenX, ChoiceByTest, ChoiceWithEntry, LoopByTest, LoopWithEntry, NotByTest, NotWithEntry, AndWithEntry;
    match p
    case TSeq(p1, p2) =>
      GenKeys(g, k, p1, false, tt, FollowOf(g, k, p1, p2, fl));
      GenKeys(g, k, p2, opt, SecondTest(g, p1, tt), fl);
    case TChoice(p1, p2) =>
      var f1 := GetFirst(g, k, p1, FULLSET);
      var c2 := Gen(g, k, p2, opt, NoTest, fl);
      GenKeys(g, k, p2, opt, NoTest, fl);
      if TestDecides(g, k, p1, p2, fl) {
        var t := TestOf(f1.cs, false);
        GenKeys(g, k, p1, false, t, fl);
        KeysChoice(t, Gen(g, k, p1, false, t, fl), c2, p2.TTrue?, |g|);
      } else if opt && p2.TTrue? {
        GenKeys(g, k, p1, true, NoTest, FULLSET);
      } else {
        var t := TestOf(f1.cs, f1.empty);
        GenKeys(g, k, p1, p2.TTrue?, t, FULLSET);
        KeysChoice(t, Gen(g, k, p1, p2.TTrue?, t, FULLSET), c2, p2.TTrue?, |g|);
      }
    case TRep(q) =>
      var f := GetFirst(g, k, q, FULLSET);
      if IsCharPattern(q) {
      } else if TestDecidesLoop(g, k, q, fl) {
        var t := TestOf(f.cs, false);
        GenKeys(g, k, q, false, t, FULLSET);
        KeysLoop(t, Gen(g, k, q, false, t, FULLSET), opt, |g|);
      } else {
        GenKeys(g, k, q, false, NoTest, FULLSET);
        KeysLoop(TestOf(f.cs, f.empty), Gen(g, k, q, false, NoTest, FULLSET), opt, |g|);
      }
    case TNot(q) =>
      var f := GetFirst(g, k, q, FULLSET);
      GenKeys(g, k, q, false, NoTest, FULLSET);
      KeysPredicate(TestOf(f.cs, f.empty), Gen(g, k, q, false, NoTest, FULLSET), 0, |g|);
    case TAnd(q) =>
      GenKeys(g, k, q, false, tt, FULLSET);
      KeysPredicate(NoTest, Gen(g, k, q, false, tt, FULLSET), FixedLen(g, q), |g|);
    case TBehind(n, q) =>
      GenKeys(g, k, q, false, NoTest, FULLSET);
      KeysPredicate(NoTest, Gen(g, k, q, false, NoTest, FULLSET), n, |g|);
    case TGrammar(rs) =>
      var body := GenRules(p, k, 0);
      RulesKeys(p, k, 0);
      RulesNeat(p, k, 0);
      CorrectedNoKeys(body, Positions(p, k, 0, 0), |g|);
    case _ =>
  }

  lemma {:induction false} RulesKeys(p: Tree, k: nat, r: nat)
    requires p.TGrammar? && r <= |p.rules|
    requires forall q :: 0 <= q < |p.rules| ==> WellFormed(p.rules, p.rules[q])
    ensures KeysBelow(GenRules(p, k, r), |p.rules|)
    decreases p, 1, |p.rules| - r
  {
    if r < |p.rules| {
      GenKeys(p.rules, k, p.rules[r], false, NoTest, FULLSET);
      RulesKeys(p, k, r + 1);
    }
  }

  ghost predicate AllCorrected(c: Code, r: Code, positions: seq<nat>) {
    |r| == |c| && forall j :: 0 <= j < |c| ==> Settled(r[j]) && Corrected(c, r, positions, j)
  }

  /** Once its calls are corrected, code has no open call and no hole left. */
  lemma CorrectedSettled(c: Code, positions: seq<nat>)
    requires Neat(c) && KeysBelow(c, |positions|)
    ensures AllCorrected(c, CorrectCalls(c, positions, 0), positions)
  {
    assert forall j :: 0 <= j < |c| ==> c[j] in c;
    CorrectCallsShape(c, positions, 0);
    var r := CorrectCalls(c, positions, 0);
    forall j | 0 <= j < |c| ensures Settled(r[j]) {
      assert Corrected(c, r, positions, j) && SlotNeat(c, j);
      if c[j].Hole? { assert Corrected(c, r, positions, j - 1); }
    }
  }

  lemma CorrectedNoKeys(c: Code, positions: seq<nat>, n: nat)
    requires Neat(c) && KeysBelow(c, |positions|)
    ensures KeysBelow(GrammarHead(|c|) + CorrectCalls(c, positions, 0), n)
  {
    hide AllCorrected, KeysBelow, Neat, GrammarHead;
    CorrectedSettled(c, positions);
    SettledNoKeys(c, positions, CorrectCalls(c, positions, 0), n);
  }

  lemma SettledNoKeys(c: Code, positions: seq<nat>, r: Code, n: nat)
    requires AllCorrected(c, r, positions)
    ensures KeysBelow(GrammarHead(|c|) + r, n)
  {
    var h := GrammarHead(|c|);
    forall x | x in h + r ensures !x.IOpenCall? {
      if x in r {
        var j :| 0 <= j < |r| && r[j] == x;
        assert Corrected(c, r, positions, j);
      }
    }
  }
}
