/** The code of a pattern: the instruction slots of the parsing machine and, as a function, the
    code that is generated for a tree.  `PegCompiler` holds the generator itself, which appends
    and patches; this is what it is shown to produce. */
module PegCode {
  import opened PegTree
  import opened PegAnalysis

  /** One slot of a program.  An instruction with a label is followed by an `Offset` slot,
      counted from the instruction itself, and one with a character set by a `Buffer` slot (the
      original spreads its bitmap over eight). `Hole` is an offset still to be set. */
  datatype Instr =
    | IAny | IChar(c: byte) | ISet
    | ITestAny | ITestChar(c: byte) | ITestSet
    | ISpan | IBehind(n: nat)
    | IRet | IEnd
    | IChoice | IJmp | ICall | IOpenCall(key: nat)
    | ICommit | IPartialCommit | IBackCommit | IFailTwice | IFail
    | Offset(d: int) | Buffer(cs: Charset) | Hole

  type Code = seq<Instr>

  /** Size of an instruction. */
  function SizeI(x: Instr): (n: nat)
    ensures n >= 1
  {
    match x
    case ISet => 2
    case ISpan => 2
    case ITestSet => 3
    case ITestChar(_) => 2
    case ITestAny => 2
    case IChoice => 2
    case IJmp => 2
    case ICall => 2
    case IOpenCall(_) => 2
    case ICommit => 2
    case IPartialCommit => 2
    case IBackCommit => 2
    case _ => 1
  }

  /** Is a set empty, a single character, everything, or none of these? */
  datatype SetKind = Empty | Single(c: byte) | Everything | General

  function CharsetType(cs: Charset): (t: SetKind)
    ensures t.Single? ==> cs == {t.c}
  {
    if cs == {} then Empty
    else if cs == FULLSET then Everything
    else if exists c :: c in cs && cs == {c} then var c :| c in cs && cs == {c}; Single(c)
    else General
  }

  /** A test that may guard a piece of code; `OnNothing` always jumps. */
  datatype Test = NoTest | OnNothing | OnAny | OnChar(c: byte) | OnSet(cs: Charset)

  /** The test for a set; none when the empty subject must be accepted. */
  function TestOf(cs: Charset, empty: bool): (t: Test)
    ensures t.NoTest? <==> empty
  {
    if empty then NoTest
    else match CharsetType(cs)
      case Empty => OnNothing
      case Everything => OnAny
      case Single(c) => OnChar(c)
      case General => OnSet(cs)
  }

  function TestSize(t: Test): (n: nat)
    ensures n == 0 <==> t.NoTest?
    ensures n != 1
  {
    match t
    case NoTest => 0
    case OnSet(_) => 3
    case _ => 2
  }

  /** The test instruction that jumps `d` slots ahead when it fails. */
  function TestCode(t: Test, d: int): (r: Code)
    ensures |r| == TestSize(t)
  {
    match t
    case NoTest => []
    case OnNothing => [IJmp, Offset(d)]
    case OnAny => [ITestAny, Offset(d)]
    case OnChar(c) => [ITestChar(c), Offset(d)]
    case OnSet(cs) => [ITestSet, Offset(d), Buffer(cs)]
  }

  function CharCode(c: byte, tt: Test): Code {
    if tt == OnChar(c) then [IAny] else [IChar(c)]
  }

  function CharsetCode(cs: Charset, tt: Test): Code {
    match CharsetType(cs)
    case Single(c) => CharCode(c, tt)
    case General => if tt == OnSet(cs) then [IAny] else [ISet, Buffer(cs)]
    case Empty => [IFail]
    case Everything => [IAny]
  }

  /** A choice `p1 / p2` needs no backtrack entry: the next character settles it. */
  predicate TestDecides(g: Rules, k: nat, p1: Tree, p2: Tree, fl: Charset) {
    var f1 := GetFirst(g, k, p1, FULLSET);
    HeadFail(g, k, p1) || (!f1.empty && f1.cs !! GetFirst(g, k, p2, fl).cs)
  }

  /** A repetition of `p` followed by `fl` needs no backtrack entry. */
  predicate TestDecidesLoop(g: Rules, k: nat, p: Tree, fl: Charset) {
    var f := GetFirst(g, k, p, FULLSET);
    HeadFail(g, k, p) || (!f.empty && f.cs !! fl)
  }

  /** The follow set the first part of a sequence is generated with. */
  function FollowOf(g: Rules, k: nat, p1: Tree, p2: Tree, fl: Charset): Charset {
    if NeedFollow(p1) then GetFirst(g, k, p2, fl).cs else FULLSET
  }

  // The shapes of code, given the code of the parts.

  /** A choice settled by a test: it leads past the first alternative, whose end jumps over the second. */
  function ChoiceByTest(t: Test, c1: Code, c2: Code, emptyp2: bool): (r: Code)
    ensures |r| == TestSize(t) + |c1| + (if emptyp2 then 0 else 2) + |c2|
  {
    var jmp := if emptyp2 then [] else [IJmp, Offset(2 + |c2|)];
    TestCode(t, TestSize(t) + |c1| + |jmp|) + c1 + jmp + c2
  }

  /** A choice with a backtrack entry, behind a test: the first alternative drops the entry at its end. */
  function ChoiceWithEntry(t: Test, c1: Code, c2: Code): (r: Code)
    ensures |r| == TestSize(t) + |c1| + 4 + |c2|
  {
    TestCode(t, TestSize(t) + |c1| + 4) + [IChoice, Offset(|c1| + 4)] + c1
    + [ICommit, Offset(2 + |c2|)] + c2
  }

  /** A loop settled by a test at its start. */
  function LoopByTest(t: Test, c: Code): (r: Code)
    ensures |r| == TestSize(t) + |c| + 2
  {
    TestCode(t, TestSize(t) + |c| + 2) + c + [IJmp, Offset(-(TestSize(t) + |c|))]
  }

  /** A loop with a backtrack entry, its own or the one on top, which every round brings up to date. */
  function LoopWithEntry(t: Test, c: Code, opt: bool): (r: Code)
    ensures |r| == TestSize(t) + |c| + 4
  {
    TestCode(t, TestSize(t) + |c| + 4)
    + (if opt then [IPartialCommit, Offset(2)] else [IChoice, Offset(|c| + 4)])
    + c + [IPartialCommit, Offset(-|c|)]
  }

  /** A negative test: what passes it fails. */
  function NotByTest(t: Test): (r: Code)
    ensures |r| == TestSize(t) + 1
  {
    TestCode(t, TestSize(t) + 1) + [IFail]
  }

  /** A negation with an entry: a match of the body drops it and fails. */
  function NotWithEntry(t: Test, c: Code): (r: Code)
    ensures |r| == TestSize(t) + |c| + 3
  {
    TestCode(t, TestSize(t) + |c| + 3) + [IChoice, Offset(|c| + 3)] + c + [IFailTwice]
  }

  function BehindCode(n: int): Code {
    if n > 0 then [IBehind(n)] else []
  }

  /** A predicate with an entry: a match of the body goes back to where it began, a failure fails. */
  function AndWithEntry(c: Code): (r: Code)
    ensures |r| == |c| + 5
  {
    [IChoice, Offset(|c| + 4)] + c + [IBackCommit, Offset(3), IFail]
  }

  /** What stands before the rules of a grammar: a call of the first one and a jump over all. */
  function GrammarHead(size: nat): (r: Code)
    ensures |r| == 4
  {
    [ICall, Offset(4), IJmp, Offset(2 + size)]
  }

  /** Code for `p`.  `opt`: this is the last thing inside an optional pattern, so the entry on
      top of the backtrack stack can be reused.  `tt`: a test that holds where this code starts.
      `fl`: characters that can follow. */
  ghost function Gen(g: Rules, k: nat, p: Tree, opt: bool, tt: Test, fl: Charset): Code
    decreases p, 3
  {
    match p
    case TChar(c) => CharCode(c, tt)
    case TAny => [IAny]
    case TSet(cs) => CharsetCode(cs, tt)
    case TTrue => []
    case TFalse => [IFail]
    case TSeq(p1, p2) =>
      Gen(g, k, p1, false, tt, FollowOf(g, k, p1, p2, fl))
      + Gen(g, k, p2, opt, SecondTest(g, p1, tt), fl)
    case TChoice(p1, p2) =>
      var f1 := GetFirst(g, k, p1, FULLSET);
      if TestDecides(g, k, p1, p2, fl) then
        var t := TestOf(f1.cs, false);
        ChoiceByTest(t, Gen(g, k, p1, false, t, fl), Gen(g, k, p2, opt, NoTest, fl), p2.TTrue?)
      else if opt && p2.TTrue? then
        [IPartialCommit, Offset(2)] + Gen(g, k, p1, true, NoTest, FULLSET)
      else
        var t := TestOf(f1.cs, f1.empty);
        ChoiceWithEntry(t, Gen(g, k, p1, p2.TTrue?, t, FULLSET), Gen(g, k, p2, opt, NoTest, fl))
    case TRep(q) =>
      var f := GetFirst(g, k, q, FULLSET);
      if IsCharPattern(q) then [ISpan, Buffer(ToCharset(q))]
      else if TestDecidesLoop(g, k, q, fl) then
        var t := TestOf(f.cs, false);
        LoopByTest(t, Gen(g, k, q, false, t, FULLSET))
      else
        LoopWithEntry(TestOf(f.cs, f.empty), Gen(g, k, q, false, NoTest, FULLSET), opt)
    case TNot(q) =>
      var f := GetFirst(g, k, q, FULLSET);
      var t := TestOf(f.cs, f.empty);
      if HeadFail(g, k, q) then NotByTest(t)
      else NotWithEntry(t, Gen(g, k, q, false, NoTest, FULLSET))
    case TAnd(q) =>
      var n := FixedLen(g, q);
      var c := Gen(g, k, q, false, tt, FULLSET);
      if 0 <= n <= MAXBEHIND then c + BehindCode(n) else AndWithEntry(c)
    case TBehind(n, q) => BehindCode(n) + Gen(g, k, q, false, NoTest, FULLSET)
    case TCall(r) => [IOpenCall(RuleKey(r)), Hole]
    case TGrammar(rs) =>
      var body := GenRules(p, k, 0);
      GrammarHead(|body|) + CorrectCalls(body, Positions(p, k, 0, 0), 0)
  }

  /** The test that still holds at the second part of a sequence. */
  function SecondTest(g: Rules, p1: Tree, tt: Test): Test {
    if FixedLen(g, p1) != 0 then NoTest else tt
  }

  /** The number of a rule as the tree keeps it, in a single byte. */
  function RuleKey(r: nat): nat { r % 256 }

  /** The rules of a grammar from number `r` on, each ending in a return. */
  ghost function GenRules(p: Tree, k: nat, r: nat): Code
    requires p.TGrammar? && r <= |p.rules|
    decreases p, 1, |p.rules| - r
  {
    if r == |p.rules| then []
    else Gen(p.rules, k, p.rules[r], false, NoTest, FULLSET) + [IRet] + GenRules(p, k, r + 1)
  }

  /** Where the rules from number `r` on start when rule `r` starts at `a`. */
  ghost function Positions(p: Tree, k: nat, r: nat, a: nat): (ps: seq<nat>)
    requires p.TGrammar? && r <= |p.rules|
    ensures |ps| == |p.rules| - r
    decreases p, 2, |p.rules| - r
  {
    if r == |p.rules| then []
    else [a] + Positions(p, k, r + 1, a + |Gen(p.rules, k, p.rules[r], false, NoTest, FULLSET)| + 1)
  }

  /** The rules, one by one. */
  lemma UnfoldRules(p: Tree, k: nat, r: nat, o: nat)
    requires p.TGrammar? && r < |p.rules|
    ensures var c := Gen(p.rules, k, p.rules[r], false, NoTest, FULLSET);
            && GenRules(p, k, r) == c + [IRet] + GenRules(p, k, r + 1)
            && Positions(p, k, r, o) == [o] + Positions(p, k, r + 1, o + |c| + 1)
  {
    hide Gen;
  }

  // ---------------------------------------------------------------- jumps

  /** The slot an instruction with a label points at. */
  function Target(code: Code, i: int): int
    requires HasLabel(code, i)
  {
    i + code[i + 1].d
  }

  predicate HasLabel(code: Code, i: int) { 0 <= i && i + 1 < |code| && code[i + 1].Offset? }

  predicate IsJump(code: Code, i: int) {
    HasLabel(code, i) && code[i].IJmp? && 0 <= Target(code, i) <= |code|
  }

  /** Where a chain of at most `n` jumps from `i` ends. */
  function FinalTarget(code: Code, i: int, n: nat): int
    decreases n
  {
    if n > 0 && IsJump(code, i) then FinalTarget(code, Target(code, i), n - 1) else i
  }

  /** After `n` jumps from `i` there is a return. */
  predicate RetAfter(code: Code, i: int, n: nat) {
    var f := FinalTarget(code, i, n);
    0 <= f < |code| && code[f].IRet?
  }

  /** The jumps from `i` lead to a return. */
  ghost predicate EndsInRet(code: Code, i: int) {
    exists n: nat :: RetAfter(code, i, n)
  }

  /** Turn open calls from slot `i` on into calls of the rule at its position, or into jumps when
      all that would be left to do after the call is to return. */
  ghost function CorrectCalls(code: Code, positions: seq<nat>, i: nat): (r: Code)
    ensures |r| == |code|
    decreases |code| - i
  {
    if i >= |code| then code
    else if code[i].IOpenCall? && i + 1 < |code| && code[i].key < |positions| then
      var call := if EndsInRet(code, i + 2) then IJmp else ICall;
      CorrectCalls(code[i := call][i + 1 := Offset(positions[code[i].key] - i)], positions, i + 2)
    else CorrectCalls(code, positions, i + SizeI(code[i]))
  }
}
