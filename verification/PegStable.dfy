/** The analyses of the original follow calls without a bound.  For a pattern without left recursion they come
    to an end all the same, with what the bounded ones say when the bound is large enough; and so does the code. */
module PegStable {
  import opened PegTree
  import opened PegAnalysis
  import opened PegCode
  import opened PegGrammar

  /** A grammar whose rules are ranked with `k` calls followed. */
  ghost predicate Ranked(g: Rules, k: nat, rank: seq<nat>, e: nat) {
    |rank| == |g| && forall r :: 0 <= r < |g| ==>
      RanksAbove(g, k, rank, r) && rank[r] < MAXRULES && NotLeftRecursive(k, g[r]) && Within(g[r], e) && WellFormed(g, g[r])
  }

  /** A pattern that stands in such a grammar, and what it may call first ranks below `top`. */
  ghost predicate Stands(g: Rules, k: nat, rank: seq<nat>, p: Tree, top: nat, e: nat) {
    && Ranked(g, k, rank, e) && NotLeftRecursive(k, p) && Within(p, e) && WellFormed(g, p)
    && RanksBelow(rank, LeftCalls(g, k, p), top) && top <= MAXRULES
  }

  lemma InnerStands(g: Rules, k: nat, p: Tree, e: nat) returns (rank: seq<nat>)
    requires p.TGrammar? && NotLeftRecursive(k, p) && Within(p, e) && WellFormed(g, p)
    ensures e > 0 && p.rules != [] && |rank| == |p.rules| && Ranked(p.rules, k, rank, e - 1)
    ensures rank[0] < MAXRULES && Stands(p.rules, k, rank, p.rules[0], rank[0], e - 1)
  {
    var rs := p.rules;
    var some :| Ranking(rs, k, some);
    rank := Compressed(rs, k, some);
    assert RanksAbove(rs, k, rank, 0);
  }

  lemma CallStands(g: Rules, k: nat, rank: seq<nat>, r: nat, top: nat, e: nat)
    requires Stands(g, k, rank, TCall(r), top, e)
    ensures r < |g| && |rank| == |g| && rank[r] < top && Stands(g, k, rank, g[r], rank[r], e)
  {
    assert r in LeftCalls(g, k, TCall(r)) && RanksAbove(g, k, rank, r);
  }

  /** The parts that an analysis looks at. */
  lemma PartStands(g: Rules, k: nat, rank: seq<nat>, p: Tree, top: nat, e: nat)
    requires Stands(g, k, rank, p, top, e)
    ensures p.TAnd? || p.TRep? || p.TNot? || p.TBehind? ==> Stands(g, k, rank, p.p, top, e)
    ensures p.TSeq? || p.TChoice? ==> Stands(g, k, rank, p.p1, top, e)
    ensures p.TChoice? || (p.TSeq? && Nullable(g, k, p.p1)) ==> Stands(g, k, rank, p.p2, top, e)
  {
    hide Ranked, CheckAux;
    if p.TBehind? { WithinMore(p.p, e - 1, e); }
  }

  /** Anywhere in a rule. */
  lemma AnywhereStands(g: Rules, k: nat, rank: seq<nat>, p: Tree, e: nat)
    requires Ranked(g, k, rank, e) && NotLeftRecursive(k, p) && Within(p, e) && WellFormed(g, p)
    ensures Stands(g, k, rank, p, MAXRULES, e)
  {
    LeftCallsRefer(g, k, p);
    forall c | c in LeftCalls(g, k, p) ensures c < |g| && rank[c] < MAXRULES { RefersInside(g, p, c); }
  }

  // ---------------------------------------------------------------- without a bound

  /** How an analysis goes that may follow `n` calls in a row: it comes to a result, or wants to follow more. */
  datatype Run<T> = Unfinished | Result(value: T)

  function CheckRun(g: Rules, n: nat, p: Tree, pred: Question): Run<bool>
    decreases n, p
  {
    match p
    case TChar(_) => Result(false)
    case TSet(_) => Result(false)
    case TAny => Result(false)
    case TFalse => Result(false)
    case TRep(_) => Result(true)
    case TTrue => Result(true)
    case TNot(_) => Result(pred == PEnullable)
    case TBehind(_, _) => Result(pred == PEnullable)
    case TAnd(q) => if pred == PEnullable then Result(true) else CheckRun(g, n, q, pred)
    case TSeq(p1, p2) =>
      var r := CheckRun(g, n, p1, pred);
      if r == Result(true) then CheckRun(g, n, p2, pred) else r
    case TChoice(p1, p2) =>
      var r := CheckRun(g, n, p2, pred);
      if r == Result(false) then CheckRun(g, n, p1, pred) else r
    case TGrammar(rs) => if rs == [] then Unfinished else CheckRun(rs, n, rs[0], pred)
    case TCall(r) => if n == 0 || r >= |g| then Unfinished else CheckRun(g, n - 1, g[r], pred)
  }

  /** It looks into negations and look-behinds, too, although what is found there does not count. */
  function FirstRun(g: Rules, n: nat, p: Tree, follow: Charset): Run<First>
    decreases n, p
  {
    match p
    case TChar(_) => Result(First(ToCharset(p), false))
    case TSet(_) => Result(First(ToCharset(p), false))
    case TAny => Result(First(ToCharset(p), false))
    case TTrue => Result(First(follow, true))
    case TFalse => Result(First({}, false))
    case TChoice(p1, p2) =>
      var r1, r2 := FirstRun(g, n, p1, follow), FirstRun(g, n, p2, follow);
      if r1.Unfinished? || r2.Unfinished? then Unfinished
      else Result(First(r1.value.cs + r2.value.cs, r1.value.empty || r2.value.empty))
    case TSeq(p1, p2) =>
      var r := CheckRun(g, n, p1, PEnullable);
      if r.Unfinished? then Unfinished
      else if !r.value then FirstRun(g, n, p1, FULLSET)
      else
        var r2 := FirstRun(g, n, p2, follow);
        if r2.Unfinished? then Unfinished
        else
          var r1 := FirstRun(g, n, p1, r2.value.cs);
          if r1.Unfinished? then Unfinished else Result(First(r1.value.cs, r1.value.empty && r2.value.empty))
    case TRep(q) =>
      var r := FirstRun(g, n, q, follow);
      if r.Unfinished? then Unfinished else Result(First(r.value.cs + follow, true))
    case TAnd(q) =>
      var r := FirstRun(g, n, q, follow);
      if r.Unfinished? then Unfinished else Result(First(r.value.cs * follow, r.value.empty))
    case TNot(q) =>
      if IsCharPattern(q) then Result(First(FULLSET - ToCharset(q), true))
      else if FirstRun(g, n, q, follow).Unfinished? then Unfinished else Result(First(follow, true))
    case TBehind(_, q) => if FirstRun(g, n, q, follow).Unfinished? then Unfinished else Result(First(follow, true))
    case TGrammar(rs) => if rs == [] then Unfinished else FirstRun(rs, n, rs[0], follow)
    case TCall(r) => if n == 0 || r >= |g| then Unfinished else FirstRun(g, n - 1, g[r], follow)
  }

  function HeadFailRun(g: Rules, n: nat, p: Tree): Run<bool>
    decreases n, p
  {
    match p
    case TChar(_) => Result(true)
    case TSet(_) => Result(true)
    case TAny => Result(true)
    case TFalse => Result(true)
    case TAnd(q) => HeadFailRun(g, n, q)
    case TSeq(p1, p2) =>
      var r := CheckRun(g, n, p2, PEnofail);
      if r == Result(true) then HeadFailRun(g, n, p1) else r
    case TChoice(p1, p2) =>
      var r := HeadFailRun(g, n, p1);
      if r == Result(true) then HeadFailRun(g, n, p2) else r
    case TGrammar(rs) => if rs == [] then Unfinished else HeadFailRun(rs, n, rs[0])
    case TCall(r) => if n == 0 || r >= |g| then Unfinished else HeadFailRun(g, n - 1, g[r])
    case _ => Result(false)
  }

  /** A result is what the bounded analysis says, with any bound from there on. */
  lemma {:induction false} CheckRunIs(g: Rules, n: nat, p: Tree, pred: Question, m: nat)
    requires CheckRun(g, n, p, pred).Result? && n <= m
    ensures CheckAux(g, m, p, pred) == CheckRun(g, n, p, pred).value
    decreases n, p
  {
    match p
    case TAnd(q) => if pred == PEnofail { CheckRunIs(g, n, q, pred, m); }
    case TSeq(p1, p2) =>
      CheckRunIs(g, n, p1, pred, m);
      if CheckRun(g, n, p1, pred).value { CheckRunIs(g, n, p2, pred, m); }
    case TChoice(p1, p2) =>
      CheckRunIs(g, n, p2, pred, m);
      if !CheckRun(g, n, p2, pred).value { CheckRunIs(g, n, p1, pred, m); }
    case TGrammar(rs) => CheckRunIs(rs, n, rs[0], pred, m);
    case TCall(r) => CheckRunIs(g, n - 1, g[r], pred, m - 1);
    case _ =>
  }

  lemma {:induction false} FirstRunIs(g: Rules, n: nat, p: Tree, follow: Charset, m: nat)
    requires FirstRun(g, n, p, follow).Result? && n <= m
    ensures GetFirst(g, m, p, follow) == FirstRun(g, n, p, follow).value
    decreases n, p
  {
    match p
    case TAnd(q) => FirstRunIs(g, n, q, follow, m);
    case TRep(q) => FirstRunIs(g, n, q, follow, m);
    case TSeq(p1, p2) =>
      CheckRunIs(g, n, p1, PEnullable, m);
      if CheckRun(g, n, p1, PEnullable).value {
        FirstRunIs(g, n, p2, follow, m);
        FirstRunIs(g, n, p1, FirstRun(g, n, p2, follow).value.cs, m);
      } else {
        FirstRunIs(g, n, p1, FULLSET, m);
      }
    case TChoice(p1, p2) =>
      FirstRunIs(g, n, p1, follow, m);
      FirstRunIs(g, n, p2, follow, m);
    case TGrammar(rs) => FirstRunIs(rs, n, rs[0], follow, m);
    case TCall(r) => FirstRunIs(g, n - 1, g[r], follow, m - 1);
    case _ =>
  }

  lemma {:induction false} HeadFailRunIs(g: Rules, n: nat, p: Tree, m: nat)
    requires HeadFailRun(g, n, p).Result? && n <= m
    ensures HeadFail(g, m, p) == HeadFailRun(g, n, p).value
    decreases n, p
  {
    match p
    case TAnd(q) => HeadFailRunIs(g, n, q, m);
    case TSeq(p1, p2) =>
      CheckRunIs(g, n, p2, PEnofail, m);
      if CheckRun(g, n, p2, PEnofail).value { HeadFailRunIs(g, n, p1, m); }
    case TChoice(p1, p2) =>
      HeadFailRunIs(g, n, p1, m);
      if HeadFailRun(g, n, p1).value { HeadFailRunIs(g, n, p2, m); }
    case TGrammar(rs) => HeadFailRunIs(rs, n, rs[0], m);
    case TCall(r) => HeadFailRunIs(g, n - 1, g[r], m - 1);
    case _ =>
  }

  /** A pattern that the run of `checkaux` lets pass is nullable. */
  lemma RunNullable(g: Rules, k: nat, n: nat, p: Tree, pred: Question)
    requires CheckRun(g, n, p, pred) == Result(true)
    ensures Nullable(g, k, p)
  {
    CheckRunIs(g, n, p, pred, n + k);
    if pred == PEnofail { NoFailNullable(g, n + k, p); }
    NullableLess(g, k, n + k, p);
  }

  /** Each call that is followed ranks lower, or a grammar further inside is entered. */
  lemma {:induction false} CheckEnds(g: Rules, k: nat, rank: seq<nat>, p: Tree, pred: Question, n: nat, top: nat, e: nat)
    requires Stands(g, k, rank, p, top, e) && n >= top + MAXRULES * e
    ensures CheckRun(g, n, p, pred).Result?
    decreases e, top, p
  {
    PartStands(g, k, rank, p, top, e);
    match p
    case TAnd(q) => CheckEnds(g, k, rank, q, pred, n, top, e);
    case TSeq(p1, p2) =>
      CheckEnds(g, k, rank, p1, pred, n, top, e);
      if CheckRun(g, n, p1, pred).value {
        RunNullable(g, k, n, p1, pred);
        CheckEnds(g, k, rank, p2, pred, n, top, e);
      }
    case TChoice(p1, p2) =>
      CheckEnds(g, k, rank, p1, pred, n, top, e);
      CheckEnds(g, k, rank, p2, pred, n, top, e);
    case TGrammar(rs) =>
      var inner := InnerStands(g, k, p, e);
      CheckEnds(rs, k, inner, rs[0], pred, n, inner[0], e - 1);
    case TCall(r) =>
      CallStands(g, k, rank, r, top, e);
      CheckEnds(g, k, rank, g[r], pred, n - 1, rank[r], e);
    case _ =>
  }

  lemma {:induction false} FirstEnds(g: Rules, k: nat, rank: seq<nat>, p: Tree, follow: Charset, n: nat, top: nat, e: nat)
    requires Stands(g, k, rank, p, top, e) && n >= top + MAXRULES * e
    ensures FirstRun(g, n, p, follow).Result?
    decreases e, top, p
  {
    PartStands(g, k, rank, p, top, e);
    match p
    case TAnd(q) => FirstEnds(g, k, rank, q, follow, n, top, e);
    case TRep(q) => FirstEnds(g, k, rank, q, follow, n, top, e);
    case TNot(q) => FirstEnds(g, k, rank, q, follow, n, top, e);
    case TBehind(_, q) => FirstEnds(g, k, rank, q, follow, n, top, e);
    case TSeq(p1, p2) =>
      CheckEnds(g, k, rank, p1, PEnullable, n, top, e);
      if CheckRun(g, n, p1, PEnullable).value {
        RunNullable(g, k, n, p1, PEnullable);
        FirstEnds(g, k, rank, p2, follow, n, top, e);
        FirstEnds(g, k, rank, p1, FirstRun(g, n, p2, follow).value.cs, n, top, e);
      } else {
        FirstEnds(g, k, rank, p1, FULLSET, n, top, e);
      }
    case TChoice(p1, p2) =>
      FirstEnds(g, k, rank, p1, follow, n, top, e);
      FirstEnds(g, k, rank, p2, follow, n, top, e);
    case TGrammar(rs) =>
      var inner := InnerStands(g, k, p, e);
      FirstEnds(rs, k, inner, rs[0], follow, n, inner[0], e - 1);
    case TCall(r) =>
      CallStands(g, k, rank, r, top, e);
      FirstEnds(g, k, rank, g[r], follow, n - 1, rank[r], e);
    case _ =>
  }

  /** Here the second part of a sequence counts wherever the first one ends. */
  lemma {:induction false} HeadFailEnds(g: Rules, k: nat, rank: seq<nat>, p: Tree, n: nat, top: nat, e: nat)
    requires Stands(g, k, rank, p, top, e) && n >= top + MAXRULES * (e + 1)
    ensures HeadFailRun(g, n, p).Result?
    decreases e, top, p
  {
    PartStands(g, k, rank, p, top, e);
    match p
    case TAnd(q) => HeadFailEnds(g, k, rank, q, n, top, e);
    case TSeq(p1, p2) =>
      AnywhereStands(g, k, rank, p2, e);
      CheckEnds(g, k, rank, p2, PEnofail, n, MAXRULES, e);
      HeadFailEnds(g, k, rank, p1, n, top, e);
    case TChoice(p1, p2) =>
      HeadFailEnds(g, k, rank, p1, n, top, e);
      HeadFailEnds(g, k, rank, p2, n, top, e);
    case TGrammar(rs) =>
      var inner := InnerStands(g, k, p, e);
      HeadFailEnds(rs, k, inner, rs[0], n, inner[0], e - 1);
    case TCall(r) =>
      CallStands(g, k, rank, r, top, e);
      HeadFailEnds(g, k, rank, g[r], n - 1, rank[r], e);
    case _ =>
  }

  /** The analyses of the original end everywhere in a pattern without left recursion, and their results are those
      of the analyses with a bound that is large enough. */
  lemma AnalysesEnd(g: Rules, k: nat, rank: seq<nat>, p: Tree, pred: Question, fl: Charset, m: nat, e: nat)
    requires Ranked(g, k, rank, e) && NotLeftRecursive(k, p) && Within(p, e) && WellFormed(g, p) && m >= MAXRULES * (e + 2)
    ensures CheckRun(g, MAXRULES * (e + 2), p, pred) == Result(CheckAux(g, m, p, pred))
    ensures FirstRun(g, MAXRULES * (e + 2), p, fl) == Result(GetFirst(g, m, p, fl))
    ensures HeadFailRun(g, MAXRULES * (e + 2), p) == Result(HeadFail(g, m, p))
  {
    var n := MAXRULES * (e + 2);
    AnywhereStands(g, k, rank, p, e);
    CheckEnds(g, k, rank, p, pred, n, MAXRULES, e);
    FirstEnds(g, k, rank, p, fl, n, MAXRULES, e);
    HeadFailEnds(g, k, rank, p, n, MAXRULES, e);
    CheckRunIs(g, n, p, pred, m);
    FirstRunIs(g, n, p, fl, m);
    HeadFailRunIs(g, n, p, m);
  }

  // ---------------------------------------------------------------- the bound

  /** A pattern anywhere in a ranked grammar, and bounds that are large enough for it. */
  ghost predicate Enough(g: Rules, k: nat, rank: seq<nat>, p: Tree, m1: nat, m2: nat, e: nat) {
    && Ranked(g, k, rank, e) && NotLeftRecursive(k, p) && Within(p, e) && WellFormed(g, p)
    && m1 >= MAXRULES * (e + 2) && m2 >= MAXRULES * (e + 2) && k >= MAXRULES * (e + 2)
  }

  /** All that the code of a pattern depends on. */
  lemma AnalysesStable(g: Rules, k: nat, rank: seq<nat>, p: Tree, fl: Charset, m1: nat, m2: nat, e: nat)
    requires Enough(g, k, rank, p, m1, m2, e)
    ensures GetFirst(g, m1, p, fl) == GetFirst(g, m2, p, fl)
    ensures GetFirst(g, m1, p, FULLSET) == GetFirst(g, m2, p, FULLSET)
    ensures HeadFail(g, m1, p) == HeadFail(g, m2, p)
    ensures Nullable(g, m1, p) == Nullable(g, m2, p) && NoFail(g, m1, p) == NoFail(g, m2, p)
  {
    AnalysesEnd(g, k, rank, p, PEnullable, fl, m1, e);
    AnalysesEnd(g, k, rank, p, PEnullable, fl, m2, e);
    AnalysesEnd(g, k, rank, p, PEnofail, FULLSET, m1, e);
    AnalysesEnd(g, k, rank, p, PEnofail, FULLSET, m2, e);
  }

  lemma PartEnough(g: Rules, k: nat, rank: seq<nat>, p: Tree, m1: nat, m2: nat, e: nat)
    requires Enough(g, k, rank, p, m1, m2, e)
    ensures p.TAnd? || p.TRep? || p.TNot? || p.TBehind? ==> Enough(g, k, rank, p.p, m1, m2, e)
    ensures p.TSeq? || p.TChoice? ==> Enough(g, k, rank, p.p1, m1, m2, e) && Enough(g, k, rank, p.p2, m1, m2, e)
  {
    hide Ranked;
    if p.TBehind? { WithinMore(p.p, e - 1, e); }
  }

  lemma {:induction false} GenStable(
      g: Rules, k: nat, rank: seq<nat>, p: Tree, opt: bool, tt: Test, fl: Charset, m1: nat, m2: nat, e: nat)
    requires Enough(g, k, rank, p, m1, m2, e)
    ensures Gen(g, m1, p, opt, tt, fl) == Gen(g, m2, p, opt, tt, fl)
    decreases p, 1
  {
    PartEnough(g, k, rank, p, m1, m2, e);
    match p {
      case TSeq(p1, p2) =>
        AnalysesStable(g, k, rank, p2, fl, m1, m2, e);
        GenStable(g, k, rank, p1, false, tt, FollowOf(g, m1, p1, p2, fl), m1, m2, e);
        GenStable(g, k, rank, p2, opt, SecondTest(g, p1, tt), fl, m1, m2, e);
      case TChoice(p1, p2) => ChoiceStable(g, k, rank, p1, p2, opt, tt, fl, m1, m2, e);
      case TRep(q) =>
        AnalysesStable(g, k, rank, q, fl, m1, m2, e);
        GenStable(g, k, rank, q, false, TestOf(GetFirst(g, m1, q, FULLSET).cs, false), FULLSET, m1, m2, e);
        GenStable(g, k, rank, q, false, NoTest, FULLSET, m1, m2, e);
      case TNot(q) =>
        AnalysesStable(g, k, rank, q, fl, m1, m2, e);
        GenStable(g, k, rank, q, false, NoTest, FULLSET, m1, m2, e);
      case TAnd(q) => GenStable(g, k, rank, q, false, tt, FULLSET, m1, m2, e);
      case TBehind(_, q) => GenStable(g, k, rank, q, false, NoTest, FULLSET, m1, m2, e);
      case TGrammar(rs) =>
        var inner := InnerStands(g, k, p, e);
        RulesStable(p, k, inner, 0, 0, m1, m2, e);
      case _ =>
    }
  }

  lemma {:induction false} ChoiceStable(
      g: Rules, k: nat, rank: seq<nat>, p1: Tree, p2: Tree, opt: bool, tt: Test, fl: Charset, m1: nat, m2: nat, e: nat)
    requires Enough(g, k, rank, p1, m1, m2, e) && Enough(g, k, rank, p2, m1, m2, e)
    ensures Gen(g, m1, TChoice(p1, p2), opt, tt, fl) == Gen(g, m2, TChoice(p1, p2), opt, tt, fl)
    decreases TChoice(p1, p2), 0
  {
    AnalysesStable(g, k, rank, p1, fl, m1, m2, e);
    AnalysesStable(g, k, rank, p2, fl, m1, m2, e);
    var f1 := GetFirst(g, m1, p1, FULLSET);
    var t := TestOf(f1.cs, f1.empty);
    GenStable(g, k, rank, p1, false, TestOf(f1.cs, false), fl, m1, m2, e);
    GenStable(g, k, rank, p1, true, NoTest, FULLSET, m1, m2, e);
    GenStable(g, k, rank, p1, p2.TTrue?, t, FULLSET, m1, m2, e);
    GenStable(g, k, rank, p2, opt, NoTest, fl, m1, m2, e);
  }

  lemma {:induction false} RulesStable(p: Tree, k: nat, rank: seq<nat>, r: nat, a: nat, m1: nat, m2: nat, e: nat)
    requires p.TGrammar? && r <= |p.rules| && e > 0 && Ranked(p.rules, k, rank, e - 1)
    requires m1 >= MAXRULES * (e + 2) && m2 >= MAXRULES * (e + 2) && k >= MAXRULES * (e + 2)
    ensures GenRules(p, m1, r) == GenRules(p, m2, r) && Positions(p, m1, r, a) == Positions(p, m2, r, a)
    decreases p, 0, |p.rules| - r
  {
    if r < |p.rules| {
      var g := p.rules;
      GenStable(g, k, rank, g[r], false, NoTest, FULLSET, m1, m2, e - 1);
      var c := Gen(g, m1, g[r], false, NoTest, FULLSET);
      RulesStable(p, k, rank, r + 1, a + |c| + 1, m1, m2, e);
      UnfoldRules(p, m1, r, a);
      UnfoldRules(p, m2, r, a);
    }
  }

  lemma {:induction false} LeftCallsStable(g: Rules, k: nat, rank: seq<nat>, p: Tree, m: nat, e: nat)
    requires Enough(g, k, rank, p, m, k, e)
    ensures LeftCalls(g, m, p) == LeftCalls(g, k, p)
    decreases p
  {
    PartEnough(g, k, rank, p, m, k, e);
    match p
    case TAnd(q) => LeftCallsStable(g, k, rank, q, m, e);
    case TRep(q) => LeftCallsStable(g, k, rank, q, m, e);
    case TNot(q) => LeftCallsStable(g, k, rank, q, m, e);
    case TBehind(_, q) => LeftCallsStable(g, k, rank, q, m, e);
    case TSeq(p1, p2) =>
      LeftCallsStable(g, k, rank, p1, m, e);
      LeftCallsStable(g, k, rank, p2, m, e);
      AnalysesStable(g, k, rank, p1, FULLSET, m, k, e);
    case TChoice(p1, p2) =>
      LeftCallsStable(g, k, rank, p1, m, e);
      LeftCallsStable(g, k, rank, p2, m, e);
    case _ =>
  }

  lemma {:induction false} RecursionStable(g: Rules, k: nat, rank: seq<nat>, p: Tree, m: nat, e: nat)
    requires Enough(g, k, rank, p, m, k, e)
    ensures NotLeftRecursive(m, p)
    decreases p
  {
    PartEnough(g, k, rank, p, m, k, e);
    match p
    case TAnd(q) => RecursionStable(g, k, rank, q, m, e);
    case TRep(q) => RecursionStable(g, k, rank, q, m, e);
    case TNot(q) => RecursionStable(g, k, rank, q, m, e);
    case TBehind(_, q) => RecursionStable(g, k, rank, q, m, e);
    case TSeq(p1, p2) =>
      RecursionStable(g, k, rank, p1, m, e);
      RecursionStable(g, k, rank, p2, m, e);
    case TChoice(p1, p2) =>
      RecursionStable(g, k, rank, p1, m, e);
      RecursionStable(g, k, rank, p2, m, e);
    case TGrammar(rs) =>
      var inner := InnerStands(g, k, p, e);
      forall r | 0 <= r < |rs| ensures RanksAbove(rs, m, inner, r) && NotLeftRecursive(m, rs[r]) {
        assert RanksAbove(rs, k, inner, r);
        LeftCallsStable(rs, k, inner, rs[r], m, e - 1);
        RecursionStable(rs, k, inner, rs[r], m, e - 1);
      }
      assert Ranking(rs, m, inner);
    case _ =>
  }

  /** All bounds that are large enough give the same code, for a pattern without left recursion; and which
      patterns those are does not depend on the bound either. */
  lemma CodeStable(k: nat, p: Tree, m: nat, e: nat)
    requires WellFormed([], p) && NotLeftRecursive(k, p) && Within(p, e)
    requires k >= MAXRULES * (e + 2) && m >= MAXRULES * (e + 2)
    ensures Gen([], m, p, false, NoTest, FULLSET) == Gen([], k, p, false, NoTest, FULLSET)
    ensures Nullable([], m, p) == Nullable([], k, p) && NotLeftRecursive(m, p)
  {
    assert Ranked([], k, [], e);
    RecursionStable([], k, [], p, m, e);
    GenStable([], k, [], p, false, NoTest, FULLSET, m, k, e);
    AnalysesStable([], k, [], p, FULLSET, m, k, e);
  }
}
