/** Threading jumps keeps what a program answers: the relation between a program and what the
    peephole pass makes of it, and why it is enough. */
module PegPeephole {
  import opened PegTree
  import opened PegCode
  import opened PegLink
  import opened PegMachine
  import opened PegFlow
  import opened PegCalls

  /** All jumps stop within `n` steps. */
  ghost predicate Calm(c: Code, n: nat) {
    forall x: int :: StopsAfter(c, x, n)
  }

  /** Whole instructions, with labels that point into the code. */
  ghost predicate Good(c: Code) {
    Neat(c) && LabelsInside(c)
  }

  /** The number of jumps from `x`, at most `n`. */
  function Dist(c: Code, x: int, n: nat): nat
    decreases n
  {
    if n > 0 && IsJump(c, x) then 1 + Dist(c, Target(c, x), n - 1) else 0
  }

  /** A program whose jumps stop, with a bound on how soon. */
  datatype Source = Source(c: Code, n: nat) {

    ghost predicate Ok() { Good(c) && Calm(c, n) }

    /** Where the jumps from `x` end. */
    function Final(x: int): int { FinalTarget(c, x, n) }

    function Far(x: int): nat { Dist(c, x, n) }

    lemma {:induction false} FarStep(x: int)
      requires Ok() && IsJump(c, x)
      ensures Final(Target(c, x)) == Final(x) && Far(Target(c, x)) < Far(x)
    {
      assert StopsAfter(c, x, n) && StopsAfter(c, Target(c, x), n);
      assert n > 0;
      assert StopsAfter(c, Target(c, x), n - 1);
      StopsLater(c, Target(c, x), n - 1, n);
      DistStays(c, Target(c, x), n - 1, n);
    }

    lemma FarHere(x: int)
      requires !IsJump(c, x)
      ensures Final(x) == x && Far(x) == 0
    {
      FinalStays(c, x, n);
    }
  }

  lemma {:induction false} DistStays(c: Code, x: int, n: nat, m: nat)
    requires StopsAfter(c, x, n) && n <= m
    ensures Dist(c, x, m) == Dist(c, x, n)
    decreases n
  {
    if IsJump(c, x) { DistStays(c, Target(c, x), n - 1, m - 1); }
  }

  /** Code that flows is calm. */
  lemma {:induction false} FlowsCalm(c: Code, upto: nat) returns (n: nat)
    requires Flows(c) && upto <= |c|
    ensures forall x: int :: x < upto || x >= |c| ==> StopsAfter(c, x, n)
  {
    if upto == 0 {
      n := 0;
    } else {
      var m := FlowsCalm(c, upto - 1);
      assert Stops(c, upto - 1);
      var l: nat :| StopsAfter(c, upto - 1, l);
      n := if m < l then l else m;
      StopsLater(c, upto - 1, l, n);
      forall x: int | x < upto || x >= |c| ensures StopsAfter(c, x, n) {
        if x < upto - 1 || x >= |c| { assert StopsAfter(c, x, m); StopsLater(c, x, m, n); }
      }
    }
  }

  /** Slot `x` of `c` does what slot `f` of the source does. */
  ghost predicate Like(p: Source, c: Code, x: nat, f: int)
    requires x < |c|
  {
    && 0 <= f < |p.c| && c[x] == p.c[f]
    && (TakesLabel(c[x]) ==>
          && HasLabel(c, x) && 0 <= Target(c, x) < |c|
          && HasLabel(p.c, f) && p.Final(Target(c, x)) == p.Final(Target(p.c, f)))
    && (c[x].ISet? || c[x].ISpan? || c[x].ITestSet? ==> x == f)
  }

  /** What slot `x` has become: a jump goes closer to where the source's goes, or has become the
      instruction found there; any other instruction is the same, its label threaded. */
  ghost predicate SlotSim(p: Source, c: Code, x: nat)
    requires x < |c| == |p.c|
  {
    if IsData(p.c[x]) then
      (IsData(c[x]) || c[x].IAny?) && (p.c[x].Buffer? ==> c[x] == p.c[x])
    else if c[x].IJmp? then
      && p.c[x].IJmp? && HasLabel(c, x) && 0 <= Target(c, x) < |c|
      && p.Final(Target(c, x)) == p.Final(x) && p.Far(Target(c, x)) < p.Far(x)
    else Like(p, c, x, p.Final(x)) && (p.c[x].IJmp? ==> Unconditional(c[x]))
  }

  ghost predicate Sim(p: Source, c: Code) {
    |c| == |p.c| && forall x :: 0 <= x < |c| ==> SlotSim(p, c, x)
  }

  lemma SimRefl(p: Source)
    requires p.Ok()
    ensures Sim(p, p.c)
  {
    forall x | 0 <= x < |p.c| ensures SlotSim(p, p.c, x) {
      assert LabelInside(p.c, x);
      if p.c[x].IJmp? { p.FarStep(x); } else { p.FarHere(x); }
    }
  }

  /** Following a jump of the new code stays on the way of the source. */
  lemma {:induction false} SimFinal(p: Source, c: Code, x: int, n: nat)
    requires p.Ok() && Sim(p, c) && 0 <= x < |c|
    ensures var f := FinalTarget(c, x, n);
            && 0 <= f < |c| && p.Final(f) == p.Final(x) && p.Far(f) <= p.Far(x)
            && (c[x].IJmp? && n > 0 ==> p.Far(f) < p.Far(x))
    decreases n
  {
    if n > 0 && IsJump(c, x) {
      assert SlotSim(p, c, x);
      SimFinal(p, c, Target(c, x), n - 1);
    } else {
      assert SlotSim(p, c, x);
    }
  }

  lemma {:induction false} SimStops(p: Source, c: Code, x: int)
    requires p.Ok() && Sim(p, c) && 0 <= x < |c|
    ensures Stops(c, x)
    decreases p.Far(x)
  {
    assert SlotSim(p, c, x);
    if IsJump(c, x) {
      SimStops(p, c, Target(c, x));
      StopsNext(c, x);
    } else {
      StopsHere(c, x);
    }
  }

  /** In simulating code no slot of an instruction lies where another instruction is. */
  lemma SimLabel(p: Source, c: Code, x: nat)
    requires p.Ok() && Sim(p, c) && x < |c| && TakesLabel(c[x])
    ensures x + 1 < |c| && p.c[x + 1].Offset? && !IsData(p.c[x]) && HasLabel(c, x) && 0 <= Target(c, x) < |c|
  {
    assert SlotSim(p, c, x) && SlotNeat(p.c, x);
    if !p.c[x].IJmp? { assert LabelInside(p.c, x); p.FarHere(x); }
  }

  /** Giving a label instruction another label with the same end keeps the relation. */
  lemma RetargetSim(p: Source, c: Code, i: nat, l: nat)
    requires p.Ok() && Sim(p, c) && i < |c| && l < |c| && TakesLabel(c[i])
    requires p.Final(l) == p.Final(if HasLabel(c, i) then Target(c, i) else l)
    requires c[i].IJmp? ==> p.Far(l) < p.Far(i)
    ensures i + 1 < |c| && Sim(p, c[i + 1 := Offset(l - i)])
  {
    SimLabel(p, c, i);
    var c' := c[i + 1 := Offset(l - i)];
    forall x | 0 <= x < |c'| ensures SlotSim(p, c', x) {
      assert SlotSim(p, c, x) && SlotSim(p, c, i);
      if x != i + 1 && TakesLabel(c[x]) { SimLabel(p, c, x); }
    }
  }

  /** A jump becomes the instruction it jumps to. */
  lemma CopySim(p: Source, c: Code, i: nat, f: nat, second: Instr)
    requires p.Ok() && Sim(p, c) && i < |c| && f < |c|
    requires c[i].IJmp? && p.Final(f) == p.Final(i) && Unconditional(c[f])
    requires if TakesLabel(c[f])
             then second.Offset? && 0 <= i + second.d < |c| && HasLabel(c, f)
                  && p.Final(i + second.d) == p.Final(Target(c, f))
             else second.IAny?
    ensures i + 1 < |c| && Sim(p, c[i := c[f]][i + 1 := second])
  {
    SimLabel(p, c, i);
    var c' := c[i := c[f]][i + 1 := second];
    assert SlotSim(p, c, f) && SlotSim(p, c, i);
    forall x | 0 <= x < |c'| ensures SlotSim(p, c', x) {
      assert SlotSim(p, c, x);
      if x != i && x != i + 1 && TakesLabel(c[x]) {
        SimLabel(p, c, x);
        assert x + 1 != i;
      }
    }
  }

  /** Instructions that leave for good: what a jump to them can be replaced by. */
  predicate Unconditional(x: Instr) {
    x.IRet? || x.IFail? || x.IFailTwice? || x.IEnd? || x.ICommit? || x.IPartialCommit? || x.IBackCommit?
  }

  /** Following jumps from `x` comes to a slot that the source's jumps come by as well. */
  lemma ChainSim(p: Source, c: Code, x: int) returns (n: nat)
    requires p.Ok() && Sim(p, c) && 0 <= x < |c|
    ensures StopsAfter(c, x, n)
    ensures var f := FinalTarget(c, x, n);
            0 <= f < |c| && p.Final(f) == p.Final(x) && (c[x].IJmp? ==> p.Far(f) < p.Far(x))
  {
    SimStops(p, c, x);
    n :| StopsAfter(c, x, n);
    SimFinal(p, c, x, n);
    if c[x].IJmp? { assert SlotSim(p, c, x); }
  }

  lemma SimInside(p: Source, c: Code)
    requires p.Ok() && Sim(p, c)
    ensures JumpsInside(c, 0)
  {
    forall x | 0 <= x < |c| && c[x].IJmp? ensures IsJump(c, x) && Target(c, x) < |c| { SimLabel(p, c, x); }
  }

  // ---------------------------------------------------------------- what the pass achieves

  /** The label at `x`, if there is one, leads past all jumps, and a jump is not one to an
      instruction that could stand in its place. */
  ghost predicate ThreadedAt(c: Code, x: nat)
    requires x < |c|
  {
    TakesLabel(c[x]) ==>
      && HasLabel(c, x) && 0 <= Target(c, x) < |c|
      && !c[Target(c, x)].IJmp? && (c[x].IJmp? ==> !Unconditional(c[Target(c, x)]))
  }

  ghost predicate ThreadedTo(c: Code, i: nat) {
    forall x :: 0 <= x < i && x < |c| ==> ThreadedAt(c, x)
  }

  lemma RetargetThreaded(p: Source, c: Code, i: nat, l: nat)
    requires p.Ok() && Sim(p, c) && i < |c| && l < |c| && TakesLabel(c[i]) && ThreadedTo(c, i)
    requires !c[l].IJmp? && (c[i].IJmp? ==> !Unconditional(c[l]))
    ensures i + 1 < |c| && ThreadedTo(c[i + 1 := Offset(l - i)], i + 1)
  {
    SimLabel(p, c, i);
    assert SlotSim(p, c, i + 1);
    var c' := c[i + 1 := Offset(l - i)];
    forall x | 0 <= x < i + 1 ensures ThreadedAt(c', x) {
      if x < i { assert ThreadedAt(c, x); }
    }
  }

  lemma CopyThreaded(p: Source, c: Code, i: nat, f: nat, second: Instr)
    requires p.Ok() && Sim(p, c) && i + 1 < |c| && f < |c| && ThreadedTo(c, i)
    requires c[i].IJmp? && Unconditional(c[f]) && (second.IAny? || second.Offset?)
    ensures var c' := c[i := c[f]][i + 1 := second];
            ThreadedTo(c', i) && (!TakesLabel(c[f]) ==> ThreadedTo(c', i + 1))
  {
    var c' := c[i := c[f]][i + 1 := second];
    forall x | 0 <= x < i ensures ThreadedAt(c', x) {
      assert ThreadedAt(c, x);
      if TakesLabel(c[x]) {
        SimLabel(p, c, x);
        assert x + 1 != i;
      }
    }
  }

  /** The slots of an instruction hold no label instruction of their own. */
  lemma SkipThreaded(p: Source, c: Code, i: nat)
    requires p.Ok() && Sim(p, c) && i < |c| && ThreadedTo(c, i + 1)
    ensures ThreadedTo(c, i + SizeI(c[i]))
  {
    assert SlotSim(p, c, i) && SlotNeat(p.c, i);
    if TakesLabel(c[i]) { SimLabel(p, c, i); }
    if !IsData(p.c[i]) && !p.c[i].IJmp? { p.FarHere(i); }
    forall x | 0 <= x < i + SizeI(c[i]) && x < |c| ensures ThreadedAt(c, x) {
      if x > i { assert SlotSim(p, c, x); }
    }
  }

  // ---------------------------------------------------------------- runs

  ghost predicate SameFrame(p: Source, f: Frame, h: Frame) {
    (f.Back? <==> h.Back?) && (f.Back? ==> f.pos == h.pos) && p.Final(f.pc) == p.Final(h.pc)
  }

  ghost predicate SameStack(p: Source, st: Stack, ut: Stack) {
    |st| == |ut| && forall j :: 0 <= j < |st| ==> SameFrame(p, st[j], ut[j])
  }

  /** Configurations that differ only by jumps still to be taken. */
  ghost predicate Same(p: Source, c: Config, d: Config) {
    if c.At? && d.At? then p.Final(c.pc) == p.Final(d.pc) && c.pos == d.pos && SameStack(p, c.stack, d.stack)
    else c == d
  }

  lemma SamePush(p: Source, st: Stack, ut: Stack, f: Frame, h: Frame)
    requires SameStack(p, st, ut) && SameFrame(p, f, h)
    ensures SameStack(p, st + [f], ut + [h])
  {
  }

  lemma SamePop(p: Source, st: Stack, ut: Stack)
    requires SameStack(p, st, ut) && st != []
    ensures ut != [] && SameFrame(p, Top(st), Top(ut)) && SameStack(p, Pop(st), Pop(ut))
  {
  }

  lemma {:induction false} SameBacktrack(p: Source, st: Stack, ut: Stack)
    requires SameStack(p, st, ut)
    ensures Same(p, Backtrack(st), Backtrack(ut))
    decreases |st|
  {
    if st != [] {
      SamePop(p, st, ut);
      if !Top(st).Back? { SameBacktrack(p, Pop(st), Pop(ut)); }
    }
  }

  /** The address of the give-up instruction is nobody's target. */
  lemma {:induction false} FinalSign(p: Source, x: int)
    requires p.Ok()
    ensures x < 0 || x >= |p.c| ==> p.Final(x) == x
    ensures 0 <= x < |p.c| ==> 0 <= p.Final(x) < |p.c|
  {
    if 0 <= x < |p.c| { SimRefl(p); SimFinal(p, p.c, x, p.n); } else { p.FarHere(x); }
  }

  /** Like instructions take same configurations to same configurations. */
  lemma LikeStep(p: Source, c: Code, s: seq<byte>, a: Config, b: Config)
    requires p.Ok() && Sim(p, c) && a.At? && b.At? && Same(p, a, b)
    requires 0 <= a.pc < |p.c| && 0 <= b.pc < |c| && !IsJump(p.c, a.pc) && !c[b.pc].IJmp?
    requires Step(p.c, s, a) != Stuck
    ensures Same(p, Step(p.c, s, a), Step(c, s, b))
  {
    var x := b.pc;
    var f := a.pc;
    p.FarHere(f);
    assert SlotSim(p, c, x);
    assert !IsData(p.c[f]);
    if IsData(p.c[x]) { p.FarHere(x); assert false; }
    assert Like(p, c, x, f);
    LikeStepBy(p, c, s, a, b);
  }

  /** Behind an instruction that goes on, both go on at the same place. */
  lemma LikeStepBy(p: Source, c: Code, s: seq<byte>, a: Config, b: Config)
    requires p.Ok() && Sim(p, c) && a.At? && b.At? && Same(p, a, b)
    requires 0 <= a.pc < |p.c| && 0 <= b.pc < |c| && Like(p, c, b.pc, a.pc)
    requires !c[b.pc].IJmp? && (!Unconditional(c[b.pc]) ==> a.pc == b.pc)
    requires Step(p.c, s, a) != Stuck
    ensures Same(p, Step(p.c, s, a), Step(c, s, b))
  {
    hide Sim, Source.Ok, Source.Final, SameFrame, SameStack;
    var st, ut := a.stack, b.stack;
    SameBacktrack(p, st, ut);
    if st != [] {
      SamePop(p, st, ut);
      SameBacktrack(p, Pop(st), Pop(ut));
    }
    var x := b.pc;
    match c[x]
    case IChoice => SamePush(p, st, ut, Back(a.pos, Target(p.c, a.pc)), Back(b.pos, Target(c, x)));
    case ICall => SamePush(p, st, ut, Return(a.pc + 2), Return(x + 2));
    case IPartialCommit => SamePush(p, Pop(st), Pop(ut), Back(a.pos, Top(st).pc), Back(b.pos, Top(ut).pc));
    case ISet => SameBuffers(p, c, x);
    case ISpan => SameBuffers(p, c, x);
    case ITestSet => SameBuffers(p, c, x);
    case _ =>
  }

  lemma SameBuffers(p: Source, c: Code, x: nat)
    requires p.Ok() && Sim(p, c) && x < |c| && c[x] == p.c[x]
    ensures c[x].ISet? || c[x].ISpan? ==> x + 1 < |c| && c[x + 1].Buffer? && c[x + 1] == p.c[x + 1]
    ensures c[x].ITestSet? ==> x + 2 < |c| && c[x + 2].Buffer? && c[x + 2] == p.c[x + 2]
  {
    assert SlotNeat(p.c, x);
    if c[x].ISet? || c[x].ISpan? { assert SlotSim(p, c, x + 1); }
    if c[x].ITestSet? { assert SlotSim(p, c, x + 2); }
  }

  /** Whatever the source program answers, the threaded program answers. */
  lemma {:induction false} SimRuns(p: Source, c: Code, s: seq<byte>, a: Config, b: Config, n: nat, ans: Answer)
    returns (m: nat)
    requires p.Ok() && Sim(p, c) && Same(p, a, b)
    requires Steps(p.c, s, a, n) == Done(ans)
    ensures Steps(c, s, b, m) == Done(ans)
    decreases n, if b.At? then p.Far(b.pc) else 0
  {
    if !a.At? {
      StepsDone(p.c, s, a, n);
      m := 0;
      assert Steps(c, s, b, 0) == b;
    } else if a.pc < 0 || a.pc >= |p.c| {
      FinalSign(p, a.pc);
      FinalSign(p, b.pc);
      StepsDone(p.c, s, Step(p.c, s, a), n - 1);
      m := 1;
      assert Step(c, s, b) == Done(ans);
      assert Steps(c, s, Step(c, s, b), 0) == Done(ans);
    } else if IsJump(p.c, a.pc) {
      p.FarStep(a.pc);
      m := SimRuns(p, c, s, Step(p.c, s, a), b, n - 1, ans);
    } else {
      p.FarHere(a.pc);
      FinalSign(p, b.pc);
      assert SlotSim(p, c, b.pc);
      if c[b.pc].IJmp? {
        var l := SimRuns(p, c, s, a, Step(c, s, b), n, ans);
        m := l + 1;
      } else {
        if Step(p.c, s, a) == Stuck { StepsDone(p.c, s, Stuck, n - 1); assert false; }
        LikeStep(p, c, s, a, b);
        var l := SimRuns(p, c, s, Step(p.c, s, a), Step(c, s, b), n - 1, ans);
        m := l + 1;
      }
    }
  }

  /** Threading jumps preserves the machine's answer on every subject. */
  lemma SimAnswers(p: Source, c: Code, s: seq<byte>, i: nat, ans: Answer)
    requires p.Ok() && Sim(p, c) && Answers(p.c, s, i, ans)
    ensures Answers(c, s, i, ans)
  {
    var n: nat :| Steps(p.c, s, Initial(i), n) == Done(ans);
    assert SameStack(p, Initial(i).stack, Initial(i).stack);
    var m := SimRuns(p, c, s, Initial(i), Initial(i), n, ans);
  }
}
