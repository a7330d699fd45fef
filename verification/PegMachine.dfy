/** The parsing machine: one step of the opcode interpreter, its runs, and its loop. */
module PegMachine {
  import opened PegTree
  import opened PegCode

  /** A stack entry: a position to go back to, or the return address of a call (which the
      original marks by a null position). */
  datatype Frame = Back(pos: nat, pc: int) | Return(pc: int)

  type Stack = seq<Frame>

  datatype Config = At(pc: int, pos: nat, stack: Stack) | Done(answer: Answer) | Stuck

  /** The address of the give-up instruction, which lies outside every program. */
  const GIVEUP := -1

  function Initial(i: nat): Config { At(0, i, [Back(i, GIVEUP)]) }

  function Pop(st: Stack): Stack requires st != [] { st[..|st| - 1] }

  function Top(st: Stack): Frame requires st != [] { st[|st| - 1] }

  /** Drop pending calls and resume at the latest saved position. */
  function Backtrack(st: Stack): Config {
    if st == [] then Stuck
    else if Top(st).Back? then At(Top(st).pc, Top(st).pos, Pop(st))
    else Backtrack(Pop(st))
  }

  /** The end of the longest run of characters of `cs` from `i` on. */
  function SpanEnd(s: seq<byte>, cs: Charset, i: nat): (j: nat)
    requires i <= |s|
    ensures i <= j <= |s|
    decreases |s| - i
  {
    if i < |s| && s[i] in cs then SpanEnd(s, cs, i + 1) else i
  }

  predicate HasBuffer(code: Code, i: int) { 0 <= i < |code| && code[i].Buffer? }

  predicate NextIn(s: seq<byte>, i: nat, cs: Charset) { i < |s| && s[i] in cs }

  function Advance(ok: bool, c: Config, size: nat): Config
    requires c.At?
  {
    if ok then At(c.pc + size, c.pos + 1, c.stack) else Backtrack(c.stack)
  }

  function TestJump(code: Code, ok: bool, c: Config, size: nat): Config
    requires c.At?
  {
    if !HasLabel(code, c.pc) then Stuck
    else if ok then At(c.pc + size, c.pos, c.stack) else At(Target(code, c.pc), c.pos, c.stack)
  }

  /** One instruction. */
  function Step(code: Code, s: seq<byte>, c: Config): Config {
    if !c.At? then c
    else if c.pc == GIVEUP then if c.stack == [] then Done(Fail) else Stuck
    else if c.pc < 0 || c.pc >= |code| then Stuck
    else
      var At(pc, pos, st) := c;
      match code[pc]
      case IEnd => if |st| == 1 then Done(Match(pos)) else Stuck
      case IRet => if st != [] && Top(st).Return? then At(Top(st).pc, pos, Pop(st)) else Stuck
      case IAny => Advance(pos < |s|, c, 1)
      case IChar(b) => Advance(NextIn(s, pos, {b}), c, 1)
      case ISet =>
        if !HasBuffer(code, pc + 1) then Stuck
        else Advance(NextIn(s, pos, code[pc + 1].cs), c, 2)
      case ITestAny => TestJump(code, pos < |s|, c, 2)
      case ITestChar(b) => TestJump(code, NextIn(s, pos, {b}), c, 2)
      case ITestSet =>
        if !HasBuffer(code, pc + 2) then Stuck
        else TestJump(code, NextIn(s, pos, code[pc + 2].cs), c, 3)
      case IBehind(n) => if n > pos then Backtrack(st) else At(pc + 1, pos - n, st)
      case ISpan =>
        if !HasBuffer(code, pc + 1) || pos > |s| then Stuck
        else At(pc + 2, SpanEnd(s, code[pc + 1].cs, pos), st)
      case IJmp => if HasLabel(code, pc) then At(Target(code, pc), pos, st) else Stuck
      case IChoice =>
        if HasLabel(code, pc) then At(pc + 2, pos, st + [Back(pos, Target(code, pc))]) else Stuck
      case ICall =>
        if HasLabel(code, pc) then At(Target(code, pc), pos, st + [Return(pc + 2)]) else Stuck
      case ICommit =>
        if HasLabel(code, pc) && st != [] && Top(st).Back? then At(Target(code, pc), pos, Pop(st))
        else Stuck
      case IPartialCommit =>
        if HasLabel(code, pc) && st != [] && Top(st).Back?
        then At(Target(code, pc), pos, Pop(st) + [Back(pos, Top(st).pc)])
        else Stuck
      case IBackCommit =>
        if HasLabel(code, pc) && st != [] && Top(st).Back?
        then At(Target(code, pc), Top(st).pos, Pop(st))
        else Stuck
      case IFailTwice => if st == [] then Stuck else Backtrack(Pop(st))
      case IFail => Backtrack(st)
      case _ => Stuck
  }

  ghost function Steps(code: Code, s: seq<byte>, c: Config, n: nat): Config
    decreases n
  {
    if n == 0 then c else Steps(code, s, Step(code, s, c), n - 1)
  }

  /** The machine, started on `s` at `i`, stops with answer `a`. */
  ghost predicate Answers(code: Code, s: seq<byte>, i: nat, a: Answer) {
    exists n: nat :: Steps(code, s, Initial(i), n) == Done(a)
  }

  /** Two configurations that come to the same configuration; the machine is deterministic, so
      whatever it does from one it does from the other. */
  ghost predicate Joins(code: Code, s: seq<byte>, c: Config, d: Config) {
    exists n: nat, m: nat :: Steps(code, s, c, n) == Steps(code, s, d, m)
  }

  lemma {:induction false} StepsAdd(code: Code, s: seq<byte>, c: Config, n: nat, m: nat)
    ensures Steps(code, s, c, n + m) == Steps(code, s, Steps(code, s, c, n), m)
    decreases n
  {
    if n > 0 { StepsAdd(code, s, Step(code, s, c), n - 1, m); }
  }

  lemma {:induction false} StepsDone(code: Code, s: seq<byte>, c: Config, n: nat)
    requires !c.At?
    ensures Steps(code, s, c, n) == c
  {
    if n > 0 { StepsDone(code, s, c, n - 1); }
  }

  lemma JoinsRefl(code: Code, s: seq<byte>, c: Config)
    ensures Joins(code, s, c, c)
  {
    assert Steps(code, s, c, 0) == Steps(code, s, c, 0);
  }

  lemma JoinsStep(code: Code, s: seq<byte>, c: Config)
    ensures Joins(code, s, c, Step(code, s, c))
  {
    assert Steps(code, s, c, 1) == Steps(code, s, Step(code, s, c), 0);
  }

  lemma JoinsSym(code: Code, s: seq<byte>, c: Config, d: Config)
    requires Joins(code, s, c, d)
    ensures Joins(code, s, d, c)
  {
    var n: nat, m: nat :| Steps(code, s, c, n) == Steps(code, s, d, m);
    assert Steps(code, s, d, m) == Steps(code, s, c, n);
  }

  lemma JoinsTrans(code: Code, s: seq<byte>, c: Config, d: Config, e: Config)
    requires Joins(code, s, c, d) && Joins(code, s, d, e)
    ensures Joins(code, s, c, e)
  {
    var n1: nat, m1: nat :| Steps(code, s, c, n1) == Steps(code, s, d, m1);
    var n2: nat, m2: nat :| Steps(code, s, d, n2) == Steps(code, s, e, m2);
    StepsAdd(code, s, c, n1, n2);
    StepsAdd(code, s, d, m1, n2);
    StepsAdd(code, s, d, n2, m1);
    StepsAdd(code, s, e, m2, m1);
    assert Steps(code, s, c, n1 + n2) == Steps(code, s, e, m2 + m1);
  }

  /** One step, then on. */
  lemma JoinsVia(code: Code, s: seq<byte>, c: Config, e: Config)
    requires Joins(code, s, Step(code, s, c), e)
    ensures Joins(code, s, c, e)
  {
    JoinsStep(code, s, c);
    JoinsTrans(code, s, c, Step(code, s, c), e);
  }

  /** A configuration that joins a final one runs into it. */
  lemma JoinsDone(code: Code, s: seq<byte>, c: Config, a: Answer) returns (n: nat)
    requires Joins(code, s, c, Done(a))
    ensures Steps(code, s, c, n) == Done(a)
  {
    var m: nat;
    n, m :| Steps(code, s, c, n) == Steps(code, s, Done(a), m);
    StepsDone(code, s, Done(a), m);
  }

  /** The machine gives at most one answer. */
  lemma AnswerUnique(code: Code, s: seq<byte>, i: nat, a: Answer, b: Answer)
    requires Answers(code, s, i, a) && Answers(code, s, i, b)
    ensures a == b
  {
    var n: nat :| Steps(code, s, Initial(i), n) == Done(a);
    var m: nat :| Steps(code, s, Initial(i), m) == Done(b);
    StepsAdd(code, s, Initial(i), n, m);
    StepsAdd(code, s, Initial(i), m, n);
    StepsDone(code, s, Done(a), m);
    StepsDone(code, s, Done(b), n);
  }
}
