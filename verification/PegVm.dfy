/** The parsing machine as it runs: a loop over the program, the subject position and a stack that
    grows by doubling. */
module PegVm {
  import opened PegTree
  import opened PegAnalysis
  import opened PegCode
  import opened PegMachine
  import opened PegCompiler
  import opened PegGrammar
  import opened PegCaptures
  import PegBuild
  import PegFixed

  /** Initial size of the backtrack stack. */
  const INITBACK := 400

  /** How large it may get when `max` is the maximum that was set. */
  function Limit(max: int): nat { if max < INITBACK then INITBACK else max }

  class BacktrackStack {
    const max: int
    var frames: array<Frame>
    var size: nat

    ghost predicate Valid()
      reads this
    {
      INITBACK <= frames.Length <= Limit(max) && size <= frames.Length
    }

    ghost function Contents(): Stack
      requires Valid()
      reads this, frames
    {
      frames[..size]
    }

    constructor (max: int)
      ensures Valid() && fresh(frames) && Contents() == [] && this.max == max
    {
      this.max := max;
      frames := new Frame[INITBACK](_ => Return(0));
      size := 0;
    }

    /** Double the size of the stack, up to the maximum; an error if it has that size. */
    method DoubleStack() returns (ok: bool)
      requires Valid() && size == frames.Length
      modifies this
      ensures Valid() && Contents() == old(Contents()) && (frames == old(frames) || fresh(frames))
      ensures ok <==> size < Limit(max)
      ensures ok ==> size < frames.Length
    {
      var old_frames, n := frames, size;
      if n >= max {
        return false;
      }
      var newn := if 2 * n > max then max else 2 * n;
      var more := new Frame[newn](_ => Return(0));
      for j := 0 to n
        invariant frames == old_frames && size == n && Valid() && Contents() == old(Contents())
        invariant more[..j] == old_frames[..j]
      {
        more[j] := old_frames[j];
      }
      frames := more;
      ok := true;
    }

    /** Push an entry; an error if there would be more of them than allowed. */
    method Push(f: Frame) returns (ok: bool)
      requires Valid()
      modifies this, frames
      ensures Valid() && (frames == old(frames) || fresh(frames))
      ensures ok <==> |old(Contents())| < Limit(max)
      ensures Contents() == if ok then old(Contents()) + [f] else old(Contents())
    {
      ok := true;
      if size == frames.Length {
        ok := DoubleStack();
      }
      if ok {
        frames[size] := f;
        size := size + 1;
      }
    }

    method PopFrame() returns (f: Frame)
      requires Valid() && Contents() != []
      modifies this`size
      ensures Valid() && f == Top(old(Contents())) && Contents() == Pop(old(Contents()))
    {
      size := size - 1;
      f := frames[size];
    }

    /** Set the subject position of the top entry. */
    method SetTopPos(pos: nat)
      requires Valid() && Contents() != [] && Top(Contents()).Back?
      modifies frames
      ensures Valid() && Contents() == Pop(old(Contents())) + [Back(pos, Top(old(Contents())).pc)]
    {
      frames[size - 1] := Back(pos, frames[size - 1].pc);
    }
  }

  /** What a match ends with: an answer, or the error that the stack has become too large. */
  datatype Outcome = Stopped(answer: Answer) | StackOverflow

  predicate Fits(c: Config, limit: nat) { c.At? ==> |c.stack| <= limit }

  /** The first `k` steps of the machine do with a stack of `limit` entries. */
  ghost predicate StaysWithin(code: Code, s: seq<byte>, i: nat, k: nat, limit: nat) {
    forall j: nat :: j <= k ==> Fits(Steps(code, s, Initial(i), j), limit)
  }

  /** Run `code` on `s` from `i`.  The machine must have an answer; this method finds it, unless on the way the
      stack gets larger than allowed. */
  method Run(code: Code, s: seq<byte>, i: nat, max: int, ghost n: nat) returns (outcome: Outcome)
    requires i <= |s| && Steps(code, s, Initial(i), n).Done?
    ensures outcome.StackOverflow? <==> !StaysWithin(code, s, i, n, Limit(max))
    ensures outcome.Stopped? ==> Done(outcome.answer) == Steps(code, s, Initial(i), n)
  {
    hide Step, Backtrack;
    var stack := new BacktrackStack(max);
    var ok := stack.Push(Back(i, GIVEUP));
    var pc, pos := 0, i;
    ghost var k: nat := 0;
    while true
      invariant fresh(stack) && stack.Valid() && fresh(stack.frames) && stack.max == max
      invariant k <= n && Steps(code, s, Initial(i), k) == At(pc, pos, stack.Contents())
      invariant StaysWithin(code, s, i, k, Limit(max))
      decreases n - k
    {
      ghost var c := At(pc, pos, stack.Contents());
      StepsOn(code, s, i, k, n);
      if pc == GIVEUP {
        StopsWithin(code, s, i, k, n, Limit(max));
        return Stopped(Fail);
      }
      if code[pc].IEnd? {
        StopsWithin(code, s, i, k, n, Limit(max));
        return Stopped(Match(pos));
      }
      assert Fits(c, Limit(max));
      StepFits(code, s, c, Limit(max));
      pc, pos, ok := Execute(code, s, pc, pos, stack);
      k := k + 1;
      if !ok {
        return StackOverflow;
      }
    }
  }

  predicate Pushes(x: Instr) { x.IChoice? || x.ICall? }

  /** Only choices and calls need more of the stack. */
  lemma StepFits(code: Code, s: seq<byte>, c: Config, limit: nat)
    requires c.At? && 0 <= c.pc < |code| && Step(code, s, c) != Stuck && |c.stack| <= limit
    ensures Fits(Step(code, s, c), limit) <==> !Pushes(code[c.pc]) || |c.stack| < limit
  {
    BacktrackSize(c.stack);
    if c.stack != [] { BacktrackSize(Pop(c.stack)); }
  }

  lemma {:induction false} BacktrackSize(st: Stack)
    ensures Backtrack(st).At? ==> |Backtrack(st).stack| <= |st|
    decreases |st|
  {
    if st != [] && !Top(st).Back? { BacktrackSize(Pop(st)); }
  }

  /** A step on the way to an answer. */
  lemma StepsOn(code: Code, s: seq<byte>, i: nat, k: nat, n: nat)
    requires k <= n && Steps(code, s, Initial(i), n).Done? && Steps(code, s, Initial(i), k).At?
    ensures k < n && Steps(code, s, Initial(i), k + 1) == Step(code, s, Steps(code, s, Initial(i), k))
    ensures var c := Steps(code, s, Initial(i), k);
            && Step(code, s, c) != Stuck
            && (if c.pc == GIVEUP then Step(code, s, c) == Done(Fail) else 0 <= c.pc < |code|)
            && (c.pc != GIVEUP && code[c.pc].IEnd? ==> Step(code, s, c) == Done(Match(c.pos)))
  {
    StepsAdd(code, s, Initial(i), k, 1);
    assert k < n;
    StepsAdd(code, s, Initial(i), k + 1, n - k - 1);
    if Steps(code, s, Initial(i), k + 1) == Stuck { StepsDone(code, s, Stuck, n - k - 1); }
  }

  /** After its last step the machine has its answer, and needs the stack no more. */
  lemma StopsWithin(code: Code, s: seq<byte>, i: nat, k: nat, n: nat, limit: nat)
    requires k < n && StaysWithin(code, s, i, k, limit) && Steps(code, s, Initial(i), k + 1).Done?
    ensures StaysWithin(code, s, i, n, limit) && Steps(code, s, Initial(i), n) == Steps(code, s, Initial(i), k + 1)
  {
    forall j: nat | k < j <= n ensures Steps(code, s, Initial(i), j) == Steps(code, s, Initial(i), k + 1) {
      StepsAdd(code, s, Initial(i), k + 1, j - k - 1);
      StepsDone(code, s, Steps(code, s, Initial(i), k + 1), j - k - 1);
    }
  }

  /** The instruction at `pc`; an error if the stack has no room for what it pushes. */
  method Execute(code: Code, s: seq<byte>, pc: int, pos: nat, stack: BacktrackStack)
    returns (pc': int, pos': nat, ok: bool)
    requires stack.Valid() && 0 <= pc < |code| && !code[pc].IEnd?
    requires Step(code, s, At(pc, pos, stack.Contents())) != Stuck
    modifies stack, stack.frames
    ensures stack.Valid() && (stack.frames == old(stack.frames) || fresh(stack.frames))
    ensures ok <==> !Pushes(code[pc]) || |old(stack.Contents())| < Limit(stack.max)
    ensures ok ==> At(pc', pos', stack.Contents()) == Step(code, s, At(pc, pos, old(stack.Contents())))
  {
    pc', pos', ok := pc, pos, true;
    var fail := false;
    match code[pc] {
      case IRet =>
        var f := stack.PopFrame();
        pc' := f.pc;
      case IAny => if pos < |s| { pc', pos' := pc + 1, pos + 1; } else { fail := true; }
      case ITestAny => pc' := if pos < |s| then pc + 2 else Target(code, pc);
      case IChar(b) => if pos < |s| && s[pos] == b { pc', pos' := pc + 1, pos + 1; } else { fail := true; }
      case ITestChar(b) => pc' := if pos < |s| && s[pos] == b then pc + 2 else Target(code, pc);
      case ISet =>
        if pos < |s| && s[pos] in code[pc + 1].cs { pc', pos' := pc + 2, pos + 1; } else { fail := true; }
      case ITestSet => pc' := if pos < |s| && s[pos] in code[pc + 2].cs then pc + 3 else Target(code, pc);
      case IBehind(n) => if n > pos { fail := true; } else { pc', pos' := pc + 1, pos - n; }
      case ISpan =>
        while pos' < |s| && s[pos'] in code[pc + 1].cs
          modifies {}
          invariant pos <= pos' <= |s| && SpanEnd(s, code[pc + 1].cs, pos') == SpanEnd(s, code[pc + 1].cs, pos)
        {
          pos' := pos' + 1;
        }
        pc' := pc + 2;
      case IJmp => pc' := Target(code, pc);
      case IChoice =>
        ok := stack.Push(Back(pos, Target(code, pc)));
        pc' := pc + 2;
      case ICall =>
        ok := stack.Push(Return(pc + 2));
        pc' := Target(code, pc);
      case ICommit =>
        var _ := stack.PopFrame();
        pc' := Target(code, pc);
      case IPartialCommit =>
        stack.SetTopPos(pos);
        pc' := Target(code, pc);
      case IBackCommit =>
        var f := stack.PopFrame();
        pos' := f.pos;
        pc' := Target(code, pc);
      case IFailTwice =>
        var _ := stack.PopFrame();
        fail := true;
      case IFail => fail := true;
    }
    if fail {
      pc', pos' := BacktrackTo(stack);
    }
  }

  /** Remove pending calls and resume at the latest saved position. */
  method BacktrackTo(stack: BacktrackStack) returns (pc: int, pos: nat)
    requires stack.Valid() && Backtrack(stack.Contents()) != Stuck
    modifies stack`size
    ensures stack.Valid() && At(pc, pos, stack.Contents()) == Backtrack(old(stack.Contents()))
  {
    var f := stack.PopFrame();
    while f.Return?
      invariant stack.Valid() && Backtrack(stack.Contents() + [f]) == Backtrack(old(stack.Contents()))
      decreases stack.size
    {
      f := stack.PopFrame();
    }
    pc, pos := f.pc, f.pos;
  }

  /** The run of `code` comes to `a`; `outcome` is that, or the error if and only if the run does not do with
      the stack allowed. */
  ghost predicate RunsTo(code: Code, s: seq<byte>, i: nat, max: int, a: Answer, outcome: Outcome) {
    exists n: nat ::
      && Steps(code, s, Initial(i), n) == Done(a)
      && outcome == if StaysWithin(code, s, i, n, Limit(max)) then Stopped(a) else StackOverflow
  }

  /** Adjust a pattern, compile it and match it: the answer is the meaning of the pattern.  The code is handed
      back, too, to be kept with the pattern. */
  method MatchPattern(k: nat, p: Tree, s: seq<byte>, i: nat, max: int, ghost n: nat)
    returns (outcome: Outcome, code: Code)
    requires WellFormed([], p) && NotLeftRecursive(k, p) && AsksEnd([], k, p)
    requires i <= |s| && !Eval([], p, s, i, n).Diverge?
    ensures outcome.Stopped? ==> outcome.answer == Eval([], p, s, i, n)
    ensures RunsTo(code, s, i, max, Eval([], p, s, i, n), outcome)
  {
    hide *;
    var q := PegBuild.Fix(p);
    PegFixed.FixKeeps(k, p);
    var state := new CompileState();
    state.Compile(k, q);
    ghost var a := Eval([], q, s, i, n);
    ghost var steps := AnswerSteps(state.code, s, i, a);
    outcome := Run(state.code, s, i, max, steps);
    code := state.code;
    RunsToAnswer(code, s, i, max, a, outcome, steps);
  }

  lemma RunsToAnswer(code: Code, s: seq<byte>, i: nat, max: int, a: Answer, outcome: Outcome, n: nat)
    requires Steps(code, s, Initial(i), n) == Done(a)
    requires outcome.StackOverflow? <==> !StaysWithin(code, s, i, n, Limit(max))
    requires outcome.Stopped? ==> Done(outcome.answer) == Done(a)
    ensures RunsTo(code, s, i, max, a, outcome) && (outcome.Stopped? ==> outcome.answer == a)
  {
  }

  /** A pattern whose grammars and loops were accepted is matched in any case, if it has no left recursion:
      matching it ends, with the answer it means, unless the stack is too small. */
  method MatchAccepted(k: nat, p: Tree, s: seq<byte>, i: nat, max: int) returns (outcome: Outcome, code: Code)
    requires WellFormed([], p) && GrammarsVerified(k, p) && !CheckLoops([], k, p) && BehindsClosed(p)
    requires NotLeftRecursive(k, p) && AsksEnd([], k, p)
    requires i <= |s|
    ensures outcome.Stopped? ==> exists n: nat :: Eval([], p, s, i, n) == outcome.answer && !outcome.answer.Diverge?
    ensures exists n: nat :: !Eval([], p, s, i, n).Diverge? && RunsTo(code, s, i, max, Eval([], p, s, i, n), outcome)
  {
    ghost var n := AcceptedTerminates(k, p, s, i);
    outcome, code := MatchPattern(k, p, s, i, max, n);
  }

  lemma AnswerSteps(code: Code, s: seq<byte>, i: nat, a: Answer) returns (n: nat)
    requires Answers(code, s, i, a)
    ensures Steps(code, s, Initial(i), n) == Done(a)
  {
    n :| Steps(code, s, Initial(i), n) == Done(a);
  }
}
