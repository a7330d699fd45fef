/** Code in which labels stay inside and following jumps comes to an end, and the shapes of code: what flows
    in one is what flows in its parts. */
module PegFlow {
  import opened PegTree
  import opened PegAnalysis
  import opened PegCode
  import opened PegLink

  /** Every label points into the code or just behind it. */
  ghost predicate LabelsIn(c: Code) {
    forall x :: 0 <= x < |c| ==> LabelIn(c, x)
  }

  predicate LabelIn(c: Code, x: nat)
    requires x < |c|
  {
    TakesLabel(c[x]) ==> HasLabel(c, x) && 0 <= Target(c, x) <= |c|
  }

  /** Every label points into the code. */
  ghost predicate LabelsInside(c: Code) {
    forall x :: 0 <= x < |c| ==> LabelInside(c, x)
  }

  predicate LabelInside(c: Code, x: nat)
    requires x < |c|
  {
    TakesLabel(c[x]) ==> HasLabel(c, x) && 0 <= Target(c, x) < |c|
  }

  predicate StopsAfter(c: Code, x: int, n: nat) { !IsJump(c, FinalTarget(c, x, n)) }

  /** The jumps from `x` come to an end. */
  ghost predicate Stops(c: Code, x: int) {
    exists n: nat :: StopsAfter(c, x, n)
  }

  ghost predicate Flows(c: Code) {
    LabelsIn(c) && forall x :: 0 <= x < |c| ==> Stops(c, x)
  }

  /** `c` is in `big` from slot `b` on. */
  ghost predicate Placed(big: Code, b: nat, c: Code) {
    b + |c| <= |big| && forall x :: 0 <= x < |c| ==> big[b + x] == c[x]
  }

  lemma StopsHere(c: Code, x: int)
    requires !IsJump(c, x)
    ensures Stops(c, x)
  {
    assert StopsAfter(c, x, 0);
  }

  lemma StopsNext(c: Code, x: int)
    requires IsJump(c, x) && Stops(c, Target(c, x))
    ensures Stops(c, x)
  {
    var n: nat :| StopsAfter(c, Target(c, x), n);
    assert StopsAfter(c, x, n + 1);
  }

  lemma FinalAdd(c: Code, x: int, n: nat, m: nat)
    ensures FinalTarget(c, x, n + m) == FinalTarget(c, FinalTarget(c, x, n), m)
    decreases n
  {
    if n > 0 && IsJump(c, x) { FinalAdd(c, Target(c, x), n - 1, m); }
  }

  lemma {:induction false} FinalStays(c: Code, x: int, n: nat)
    requires !IsJump(c, x)
    ensures FinalTarget(c, x, n) == x
  {
  }

  /** Once stopped, a chain stays where it is. */
  lemma StopsLater(c: Code, x: int, n: nat, m: nat)
    requires StopsAfter(c, x, n) && n <= m
    ensures FinalTarget(c, x, m) == FinalTarget(c, x, n)
  {
    FinalAdd(c, x, n, m - n);
    FinalStays(c, FinalTarget(c, x, n), m - n);
  }

  /** Jumps in a piece of code come to an end if those behind it do. */
  lemma {:induction false} PlacedStopsAfter(big: Code, b: nat, c: Code, x: nat, n: nat)
    requires Placed(big, b, c) && LabelsIn(c) && x <= |c|
    requires StopsAfter(c, x, n) && Stops(big, b + |c|)
    ensures Stops(big, b + x)
    decreases n
  {
    if x < |c| {
      assert LabelIn(c, x) && big[b + x] == c[x];
      if x + 1 < |c| { assert big[b + (x + 1)] == c[x + 1]; }
      if IsJump(c, x) {
        PlacedStopsAfter(big, b, c, Target(c, x), n - 1);
        StopsNext(big, b + x);
      } else {
        StopsHere(big, b + x);
      }
    }
  }

  /** Jumps that end in the whole end in a piece of it. */
  lemma {:induction false} PlacedStopped(big: Code, b: nat, c: Code, x: nat, n: nat)
    requires Placed(big, b, c) && LabelsIn(c) && x <= |c| && StopsAfter(big, b + x, n)
    ensures Stops(c, x)
    decreases n
  {
    if x < |c| && IsJump(c, x) {
      assert LabelIn(c, x) && big[b + x] == c[x] && big[b + (x + 1)] == c[x + 1];
      PlacedStopped(big, b, c, Target(c, x), n - 1);
      StopsNext(c, x);
    } else {
      StopsHere(c, x);
    }
  }

  /** So a piece of code that flows does. */
  lemma PartBack(c: Code, b: nat, part: Code)
    requires Placed(c, b, part) && LabelsIn(part)
    ensures Flows(c) ==> Flows(part)
  {
    if Flows(c) {
      forall x | 0 <= x < |part| ensures Stops(part, x) {
        assert Stops(c, b + x);
        var n: nat :| StopsAfter(c, b + x, n);
        PlacedStopped(c, b, part, x, n);
      }
    }
  }

  lemma StopsAtEnd(c: Code)
    ensures Stops(c, |c|)
  {
    StopsHere(c, |c|);
  }

  lemma FlowsOne(op: Instr)
    requires !TakesLabel(op)
    ensures Flows([op]) && Flows([])
  {
    StopsHere([op], 0);
  }

  lemma FlowsTwo(a: Instr, b: Instr)
    requires !TakesLabel(a) && !TakesLabel(b)
    ensures Flows([a, b])
  {
    StopsHere([a, b], 0);
    StopsHere([a, b], 1);
  }

  lemma FlowsBehind(n: int)
    ensures Flows(BehindCode(n))
  {
    FlowsOne(IAny);
    if n > 0 { FlowsOne(IBehind(n)); }
  }

  /** Slot `q` is the label instruction `op`, pointing at `l`. */
  predicate LabelAt(c: Code, q: nat, op: Instr, l: int) {
    HasLabel(c, q) && c[q] == op && Target(c, q) == l && TakesLabel(op)
  }

  ghost predicate LabelsBetween(c: Code, a: nat, b: nat) {
    b <= |c| && forall x :: a <= x < b ==> LabelIn(c, x)
  }

  lemma LabelsLabel(c: Code, q: nat, op: Instr, l: nat)
    requires LabelAt(c, q, op, l) && l <= |c|
    ensures LabelsBetween(c, q, q + 2)
  {
  }

  lemma LabelsTest(c: Code, t: Test, l: nat)
    requires |c| >= TestSize(t) && Placed(c, 0, TestCode(t, l)) && l <= |c|
    ensures LabelsBetween(c, 0, TestSize(t))
  {
    if !t.NoTest? {
      var tc := TestCode(t, l);
      assert c[0 + 0] == tc[0] && c[0 + 1] == tc[1];
      if t.OnSet? { assert c[0 + 2] == tc[2]; }
    }
  }

  lemma LabelsPart(c: Code, b: nat, part: Code)
    requires Placed(c, b, part) && LabelsIn(part)
    ensures LabelsBetween(c, b, b + |part|)
  {
    forall x | b <= x < b + |part| ensures LabelIn(c, x) {
      assert LabelIn(part, x - b) && c[b + (x - b)] == part[x - b];
      if x - b + 1 < |part| { assert c[b + (x - b + 1)] == part[x - b + 1]; }
    }
  }

  lemma LabelsAll(c: Code)
    requires LabelsBetween(c, 0, |c|)
    ensures LabelsIn(c)
  {
  }

  /** From every slot from `a` up to `b` the jumps end. */
  ghost predicate StopsBetween(c: Code, a: nat, b: nat) {
    b <= |c| && forall x :: a <= x < b ==> Stops(c, x)
  }

  /** A label instruction: its jump, if it is one, ends where its target's does. */
  lemma FlowsLabel(c: Code, q: nat, op: Instr, l: nat)
    requires LabelAt(c, q, op, l) && l <= |c| && Stops(c, l)
    ensures StopsBetween(c, q, q + 2) && Stops(c, q)
  {
    if op.IJmp? { StopsNext(c, q); } else { StopsHere(c, q); }
    StopsHere(c, q + 1);
  }

  /** A test at the start of code. */
  lemma FlowsTest(c: Code, t: Test, l: nat)
    requires |c| >= TestSize(t) && Placed(c, 0, TestCode(t, l)) && l <= |c| && Stops(c, l)
    ensures StopsBetween(c, 0, TestSize(t)) && (!t.NoTest? ==> Stops(c, 0))
  {
    if !t.NoTest? {
      var tc := TestCode(t, l);
      assert c[0 + 0] == tc[0] && c[0 + 1] == tc[1];
      FlowsLabel(c, 0, tc[0], l);
      if t.OnSet? {
        assert c[0 + 2] == tc[2];
        StopsHere(c, 2);
      }
    }
  }

  /** A part that flows. */
  lemma FlowsPart(c: Code, b: nat, part: Code)
    requires Placed(c, b, part) && Flows(part) && Stops(c, b + |part|)
    ensures StopsBetween(c, b, b + |part|) && Stops(c, b)
  {
    forall x | b <= x < b + |part| ensures Stops(c, x) {
      assert Stops(part, x - b);
      var n: nat :| StopsAfter(part, x - b, n);
      PlacedStopsAfter(c, b, part, x - b, n);
    }
  }

  /** When every slot flows, the code does. */
  lemma FlowsAll(c: Code)
    requires LabelsIn(c) && StopsBetween(c, 0, |c|)
    ensures Flows(c)
  {
  }

  // ---------------------------------------------------------------- shapes

  lemma FlowsConcat(u: Code, v: Code)
    requires LabelsIn(u) && LabelsIn(v)
    ensures LabelsIn(u + v) && (Flows(u + v) <==> Flows(u) && Flows(v))
  {
    hide Flows, Stops;
    var c := u + v;
    LabelsPart(c, |u|, v);
    LabelsPart(c, 0, u);
    PartBack(c, |u|, v);
    PartBack(c, 0, u);
    if Flows(u) && Flows(v) {
      StopsAtEnd(c);
      FlowsPart(c, |u|, v);
      FlowsPart(c, 0, u);
      FlowsAll(c);
    }
  }

  lemma ChoiceByTestLayout(t: Test, c1: Code, c2: Code, empty: bool)
    ensures var c := ChoiceByTest(t, c1, c2, empty);
            var h := TestSize(t);
            var l1 := h + |c1| + (if empty then 0 else 2);
            && Placed(c, l1, c2) && Placed(c, h, c1) && Placed(c, 0, TestCode(t, l1))
            && (!empty ==> LabelAt(c, h + |c1|, IJmp, |c|))
  {
    hide TestCode;
  }

  lemma FlowsChoiceByTest(t: Test, c1: Code, c2: Code, empty: bool)
    requires LabelsIn(c1) && LabelsIn(c2)
    ensures var c := ChoiceByTest(t, c1, c2, empty); LabelsIn(c) && (Flows(c) <==> Flows(c2) && Flows(c1))
  {
    hide Flows, Stops, Placed, ChoiceByTest, TestCode;
    var c := ChoiceByTest(t, c1, c2, empty);
    var h := TestSize(t);
    var l1 := h + |c1| + (if empty then 0 else 2);
    ChoiceByTestLayout(t, c1, c2, empty);
    LabelsTest(c, t, l1);
    if !empty { LabelsLabel(c, h + |c1|, IJmp, |c|); }
    LabelsPart(c, l1, c2);
    LabelsPart(c, h, c1);
    LabelsAll(c);
    PartBack(c, l1, c2);
    PartBack(c, h, c1);
    if Flows(c2) && Flows(c1) {
      StopsAtEnd(c);
      FlowsPart(c, l1, c2);
      if !empty {
        FlowsLabel(c, h + |c1|, IJmp, |c|);
      }
      FlowsPart(c, h, c1);
      FlowsTest(c, t, l1);
      FlowsAll(c);
    }
  }

  lemma ChoiceWithEntryLayout(t: Test, c1: Code, c2: Code)
    ensures var c := ChoiceWithEntry(t, c1, c2);
            var h := TestSize(t);
            var l1 := h + |c1| + 4;
            && Placed(c, l1, c2) && Placed(c, h + 2, c1) && Placed(c, 0, TestCode(t, l1))
            && LabelAt(c, h + 2 + |c1|, ICommit, |c|) && LabelAt(c, h, IChoice, l1)
  {
    hide TestCode;
  }

  lemma FlowsChoiceWithEntry(t: Test, c1: Code, c2: Code)
    requires LabelsIn(c1) && LabelsIn(c2)
    ensures var c := ChoiceWithEntry(t, c1, c2); LabelsIn(c) && (Flows(c) <==> Flows(c2) && Flows(c1))
  {
    hide Flows, Stops, Placed, ChoiceWithEntry, TestCode;
    var c := ChoiceWithEntry(t, c1, c2);
    var h := TestSize(t);
    var l1 := h + |c1| + 4;
    ChoiceWithEntryLayout(t, c1, c2);
    LabelsTest(c, t, l1);
    LabelsLabel(c, h, IChoice, l1);
    LabelsLabel(c, h + 2 + |c1|, ICommit, |c|);
    LabelsPart(c, l1, c2);
    LabelsPart(c, h + 2, c1);
    LabelsAll(c);
    PartBack(c, l1, c2);
    PartBack(c, h + 2, c1);
    if Flows(c2) && Flows(c1) {
      StopsAtEnd(c);
      FlowsPart(c, l1, c2);
      FlowsLabel(c, h + 2 + |c1|, ICommit, |c|);
      FlowsPart(c, h + 2, c1);
      FlowsLabel(c, h, IChoice, l1);
      FlowsTest(c, t, l1);
      FlowsAll(c);
    }
  }

  lemma LoopByTestLayout(t: Test, c1: Code)
    ensures var c := LoopByTest(t, c1);
            var h := TestSize(t);
            Placed(c, h, c1) && Placed(c, 0, TestCode(t, |c|)) && LabelAt(c, h + |c1|, IJmp, 0)
  {
    hide TestCode;
  }

  lemma FlowsLoopByTest(t: Test, c1: Code)
    requires LabelsIn(c1) && !t.NoTest?
    ensures var c := LoopByTest(t, c1); LabelsIn(c) && (Flows(c) <==> Flows(c1))
  {
    hide Flows, Stops, Placed, LoopByTest, TestCode;
    var c := LoopByTest(t, c1);
    var h := TestSize(t);
    LoopByTestLayout(t, c1);
    LabelsTest(c, t, |c|);
    LabelsLabel(c, h + |c1|, IJmp, 0);
    LabelsPart(c, h, c1);
    LabelsAll(c);
    PartBack(c, h, c1);
    if Flows(c1) {
      StopsAtEnd(c);
      FlowsTest(c, t, |c|);
      FlowsLabel(c, h + |c1|, IJmp, 0);
      FlowsPart(c, h, c1);
      FlowsAll(c);
    }
  }

  /** A piece of code between others is placed there; a label instruction between others is a label. */
  lemma PlacedBetween(u: Code, v: Code, w: Code)
    ensures Placed(u + v + w, |u|, v)
  {
  }

  lemma LabelBetween(u: Code, op: Instr, d: int, w: Code)
    requires TakesLabel(op)
    ensures LabelAt(u + [op, Offset(d)] + w, |u|, op, |u| + d)
  {
    assert (u + [op, Offset(d)] + w)[|u| + 1] == Offset(d);
  }

  lemma Regroup(a: Code, b: Code, c: Code, d: Code)
    ensures a + b + c + d == a + b + (c + d) && a + b + c + d == [] + a + (b + c + d)
    ensures a + b + c + d == a + b + c + d + []
  {
  }

  lemma LoopWithEntryLayout(t: Test, c1: Code, opt: bool)
    ensures var c := LoopWithEntry(t, c1, opt);
            var h := TestSize(t);
            && Placed(c, h + 2, c1) && Placed(c, 0, TestCode(t, |c|))
            && LabelAt(c, h + 2 + |c1|, IPartialCommit, h + 2)
            && (if opt then LabelAt(c, h, IPartialCommit, h + 2) else LabelAt(c, h, IChoice, |c|))
  {
    var h, d := TestSize(t), |c1| + 4;
    var tc := TestCode(t, h + d);
    var e: Code := if opt then [IPartialCommit, Offset(2)] else [IChoice, Offset(d)];
    var pc: Code := [IPartialCommit, Offset(-|c1|)];
    assert LoopWithEntry(t, c1, opt) == tc + e + c1 + pc;
    hide TestCode, LoopWithEntry, Placed, LabelAt;
    Regroup(tc, e, c1, pc);
    PlacedBetween([], tc, e + c1 + pc);
    PlacedBetween(tc + e, c1, pc);
    LabelBetween(tc, if opt then IPartialCommit else IChoice, if opt then 2 else d, c1 + pc);
    LabelBetween(tc + e + c1, IPartialCommit, -|c1|, []);
  }

  lemma FlowsLoopWithEntry(t: Test, c1: Code, opt: bool)
    requires LabelsIn(c1)
    ensures var c := LoopWithEntry(t, c1, opt); LabelsIn(c) && (Flows(c) <==> Flows(c1))
  {
    hide Flows, Stops, Placed, LoopWithEntry, TestCode;
    var c := LoopWithEntry(t, c1, opt);
    var h := TestSize(t);
    var e := h + 2 + |c1|;
    LoopWithEntryLayout(t, c1, opt);
    LabelsTest(c, t, |c|);
    if opt { LabelsLabel(c, h, IPartialCommit, h + 2); } else { LabelsLabel(c, h, IChoice, |c|); }
    LabelsLabel(c, e, IPartialCommit, h + 2);
    LabelsPart(c, h + 2, c1);
    LabelsAll(c);
    PartBack(c, h + 2, c1);
    if Flows(c1) {
      StopsAtEnd(c);
      StopsHereUnlessJmp(c, e);
      FlowsPart(c, h + 2, c1);
      FlowsLabel(c, e, IPartialCommit, h + 2);
      if opt {
        FlowsLabel(c, h, IPartialCommit, h + 2);
      } else {
        FlowsLabel(c, h, IChoice, |c|);
      }
      FlowsTest(c, t, |c|);
      FlowsAll(c);
    }
  }

  lemma StopsHereUnlessJmp(c: Code, x: nat)
    requires x < |c| && !c[x].IJmp?
    ensures Stops(c, x)
  {
    StopsHere(c, x);
  }

  lemma FlowsNotByTest(t: Test)
    ensures var c := NotByTest(t); LabelsIn(c) && Flows(c)
  {
    hide Flows, Stops;
    var c := NotByTest(t);
    assert Placed(c, 0, TestCode(t, |c|));
    LabelsTest(c, t, |c|);
    LabelsAll(c);
    StopsAtEnd(c);
    StopsHereUnlessJmp(c, TestSize(t));
    FlowsTest(c, t, |c|);
    FlowsAll(c);
  }

  lemma NotWithEntryLayout(t: Test, c1: Code)
    ensures var c := NotWithEntry(t, c1);
            var h := TestSize(t);
            && Placed(c, h + 2, c1) && Placed(c, 0, TestCode(t, |c|))
            && LabelAt(c, h, IChoice, |c|) && c[|c| - 1] == IFailTwice
  {
    hide TestCode;
  }

  lemma FlowsNotWithEntry(t: Test, c1: Code)
    requires LabelsIn(c1)
    ensures var c := NotWithEntry(t, c1); LabelsIn(c) && (Flows(c) <==> Flows(c1))
  {
    hide Flows, Stops, Placed, NotWithEntry, TestCode;
    var c := NotWithEntry(t, c1);
    var h := TestSize(t);
    NotWithEntryLayout(t, c1);
    LabelsTest(c, t, |c|);
    LabelsLabel(c, h, IChoice, |c|);
    LabelsPart(c, h + 2, c1);
    LabelsAll(c);
    PartBack(c, h + 2, c1);
    if Flows(c1) {
      StopsAtEnd(c);
      StopsHereUnlessJmp(c, |c| - 1);
      FlowsPart(c, h + 2, c1);
      FlowsLabel(c, h, IChoice, |c|);
      FlowsTest(c, t, |c|);
      FlowsAll(c);
    }
  }

  lemma FlowsAndWithEntry(c1: Code)
    requires LabelsIn(c1)
    ensures var c := AndWithEntry(c1); LabelsIn(c) && (Flows(c) <==> Flows(c1))
  {
    hide Flows, Stops;
    var c := AndWithEntry(c1);
    var b := 2 + |c1|;
    assert Placed(c, 2, c1) && LabelAt(c, 0, IChoice, b + 2) && LabelAt(c, b, IBackCommit, |c|);
    LabelsLabel(c, 0, IChoice, b + 2);
    LabelsLabel(c, b, IBackCommit, |c|);
    LabelsPart(c, 2, c1);
    LabelsAll(c);
    PartBack(c, 2, c1);
    if Flows(c1) {
      StopsAtEnd(c);
      StopsHereUnlessJmp(c, b + 2);
      FlowsLabel(c, b, IBackCommit, |c|);
      FlowsPart(c, 2, c1);
      FlowsLabel(c, 0, IChoice, b + 2);
      FlowsAll(c);
    }
  }

  lemma FlowsOptional(c1: Code)
    requires LabelsIn(c1)
    ensures var c := [IPartialCommit, Offset(2)] + c1; LabelsIn(c) && (Flows(c) <==> Flows(c1))
  {
    hide Flows, Stops;
    var c := [IPartialCommit, Offset(2)] + c1;
    assert Placed(c, 2, c1) && LabelAt(c, 0, IPartialCommit, 2);
    LabelsLabel(c, 0, IPartialCommit, 2);
    LabelsPart(c, 2, c1);
    LabelsAll(c);
    PartBack(c, 2, c1);
    if Flows(c1) {
      StopsAtEnd(c);
      FlowsPart(c, 2, c1);
      FlowsLabel(c, 0, IPartialCommit, 2);
      FlowsAll(c);
    }
  }

  lemma FlowsGrammar(r: Code)
    requires LabelsIn(r)
    ensures var c := GrammarHead(|r|) + r; LabelsIn(c) && (Flows(c) <==> Flows(r))
  {
    hide Flows, Stops;
    var c := GrammarHead(|r|) + r;
    assert Placed(c, 4, r) && LabelAt(c, 0, ICall, 4) && LabelAt(c, 2, IJmp, |c|);
    LabelsLabel(c, 0, ICall, 4);
    LabelsLabel(c, 2, IJmp, |c|);
    LabelsPart(c, 4, r);
    LabelsAll(c);
    PartBack(c, 4, r);
    if Flows(r) {
      StopsAtEnd(c);
      FlowsPart(c, 4, r);
      FlowsLabel(c, 0, ICall, 4);
      FlowsLabel(c, 2, IJmp, |c|);
      FlowsAll(c);
    }
  }
}
