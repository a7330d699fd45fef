/** Where the jumps of generated code lead, and exactly when following them comes to an end. */
module PegJumps {
  import opened PegTree
  import opened PegAnalysis
  import opened PegCode
  import opened PegLink
  import opened PegFlow

  /** Where the code of a pattern gets to by jumps alone: to an instruction that is no jump, to its end, or
      to an open call.  With `last`, jumps behind that call lead to the end. */
  datatype Lead = Halts | Ends | Calls(key: nat, last: bool)

  function Then(l1: Lead, l2: Lead): Lead {
    match l1
    case Halts => Halts
    case Ends => l2
    case Calls(key, last) => Calls(key, last && l2.Ends?)
  }

  /** No character can start `p`, and it does not accept the empty subject: a test for it is a jump. */
  predicate NeverStarts(g: Rules, k: nat, p: Tree) {
    var f := GetFirst(g, k, p, FULLSET);
    !f.empty && f.cs == {}
  }

  function BehindLead(n: int): Lead { if n > 0 then Halts else Ends }

  function LeadOf(g: Rules, k: nat, p: Tree): Lead
    decreases p
  {
    match p
    case TTrue => Ends
    case TSeq(p1, p2) => Then(LeadOf(g, k, p1), LeadOf(g, k, p2))
    case TChoice(p1, p2) => if NeverStarts(g, k, p1) then LeadOf(g, k, p2) else Halts
    case TRep(q) => if !IsCharPattern(q) && NeverStarts(g, k, q) then Ends else Halts
    case TNot(q) => if NeverStarts(g, k, q) then Ends else Halts
    case TAnd(q) =>
      var n := FixedLen(g, q);
      if 0 <= n <= MAXBEHIND then Then(LeadOf(g, k, q), BehindLead(n)) else Halts
    case TBehind(n, q) => Then(BehindLead(n), LeadOf(g, k, q))
    case TCall(r) => Calls(RuleKey(r), true)
    case _ => Halts
  }

  function NextRule(l: Lead): int { if l.Calls? && l.last then l.key else -1 }

  /** The rule that is jumped to, from the start of rule `r` and with nothing else done; none is -1. */
  function Hop(rs: Rules, k: nat, r: nat): int
    requires r < |rs|
  {
    NextRule(LeadOf(rs, k, rs[r]))
  }

  /** The same after `n` such jumps. */
  function Hops(rs: Rules, k: nat, r: int, n: nat): int
    decreases n
  {
    if !(0 <= r < |rs|) then -1 else if n == 0 then r else Hops(rs, k, Hop(rs, k, r), n - 1)
  }

  /** From the start of every rule, jumps from rule to rule have an end. */
  predicate TailsEnd(rs: Rules, k: nat) {
    forall r :: 0 <= r < |rs| ==> Hops(rs, k, r, |rs|) < 0
  }

  /** Following jumps comes to an end everywhere in the code of `p`. */
  predicate JumpsEnd(g: Rules, k: nat, p: Tree)
    decreases p
  {
    match p
    case TRep(q) => JumpsEnd(g, k, q)
    case TNot(q) => HeadFail(g, k, q) || JumpsEnd(g, k, q)
    case TAnd(q) => JumpsEnd(g, k, q)
    case TBehind(_, q) => JumpsEnd(g, k, q)
    case TSeq(p1, p2) => JumpsEnd(g, k, p1) && JumpsEnd(g, k, p2)
    case TChoice(p1, p2) => JumpsEnd(g, k, p1) && JumpsEnd(g, k, p2)
    case TGrammar(rs) => TailsEnd(rs, k) && forall r :: 0 <= r < |rs| ==> JumpsEnd(rs, k, rs[r])
    case _ => true
  }

  // ---------------------------------------------------------------- from rule to rule

  /** Jumps from the start of rule `r` come back to it. */
  ghost predicate ComesBack(rs: Rules, k: nat, r: nat) {
    exists n: nat :: n > 0 && Hops(rs, k, r, n) == r
  }

  lemma {:induction false} HopsAdd(rs: Rules, k: nat, r: int, n: nat, m: nat)
    ensures Hops(rs, k, r, n + m) == Hops(rs, k, Hops(rs, k, r, n), m)
    decreases n
  {
    if 0 <= r < |rs| && n > 0 { HopsAdd(rs, k, Hop(rs, k, r), n - 1, m); }
  }

  /** Jumps that have an end do not come back. */
  lemma {:induction false} EndsNotBack(rs: Rules, k: nat, r: nat, n: nat, m: nat)
    requires r < |rs| && n > 0 && Hops(rs, k, r, n) == r
    ensures Hops(rs, k, r, m) >= 0
    decreases m
  {
    if m >= n {
      HopsAdd(rs, k, r, n, m - n);
      EndsNotBack(rs, k, r, n, m - n);
    } else {
      HopsAdd(rs, k, r, m, n - m);
    }
  }

  /** More numbers than there are to choose from: two are equal. */
  lemma {:induction false} Repeats(way: seq<int>, m: nat) returns (i: nat, j: nat)
    requires |way| > m && forall x :: 0 <= x < |way| ==> 0 <= way[x] < m
    ensures i < j < |way| && way[i] == way[j]
    decreases m
  {
    var last := |way| - 1;
    if x :| 0 <= x < last && way[x] == way[last] {
      i, j := x, last;
    } else {
      var other := seq(last, x requires 0 <= x < last => if way[x] == m - 1 then way[last] else way[x]);
      i, j := Repeats(other, m - 1);
    }
  }

  /** The jumps from every rule have an end if and only if from no rule they lead back to that rule. */
  lemma TailsEndExact(rs: Rules, k: nat)
    ensures TailsEnd(rs, k) <==> forall r: nat :: r < |rs| ==> !ComesBack(rs, k, r)
  {
    if r: nat :| r < |rs| && ComesBack(rs, k, r) {
      var n: nat :| n > 0 && Hops(rs, k, r, n) == r;
      EndsNotBack(rs, k, r, n, |rs|);
    }
    if r: nat :| r < |rs| && Hops(rs, k, r, |rs|) >= 0 { LongWayBack(rs, k, r); }
  }

  lemma LongWayBack(rs: Rules, k: nat, r: nat)
    requires r < |rs| && Hops(rs, k, r, |rs|) >= 0
    ensures exists q: nat :: q < |rs| && ComesBack(rs, k, q)
  {
    var way := seq(|rs| + 1, x requires 0 <= x <= |rs| => Hops(rs, k, r, x));
    forall x | 0 <= x < |way| ensures 0 <= way[x] < |rs| {
      HopsAdd(rs, k, r, x, |rs| - x);
      HopsInside(rs, k, r, x);
    }
    var i, j := Repeats(way, |rs|);
    HopsAdd(rs, k, r, i, j - i);
    var q: nat := way[i];
    assert Hops(rs, k, q, j - i) == q;
    assert ComesBack(rs, k, q);
  }

  lemma HopsInside(rs: Rules, k: nat, r: int, n: nat)
    ensures -1 <= Hops(rs, k, r, n) < |rs|
    decreases n
  {
  }

  ghost predicate HasEnd(rs: Rules, k: nat, r: nat) {
    exists n: nat :: Hops(rs, k, r, n) < 0
  }

  /** However many jumps, if they have an end they have one after as many as there are rules. */
  lemma SomeEnd(rs: Rules, k: nat)
    requires forall r: nat :: r < |rs| ==> HasEnd(rs, k, r)
    ensures TailsEnd(rs, k)
  {
    forall r: nat | r < |rs| ensures !ComesBack(rs, k, r) {
      if ComesBack(rs, k, r) {
        assert HasEnd(rs, k, r);
        var n: nat :| n > 0 && Hops(rs, k, r, n) == r;
        var m: nat :| Hops(rs, k, r, m) < 0;
        EndsNotBack(rs, k, r, n, m);
      }
    }
    TailsEndExact(rs, k);
  }

  // ---------------------------------------------------------------- ways

  /** From slot `x`, `n` jumps lead to slot `f`, and none of them is before `lo`. */
  predicate Way(c: Code, lo: int, x: int, n: nat, f: int)
    decreases n
  {
    lo <= x && if n == 0 then x == f else IsJump(c, x) && Way(c, lo, Target(c, x), n - 1, f)
  }

  /** Jumps lead from `x` to `f` and never before `x`. */
  ghost predicate Leads(c: Code, x: int, f: int) {
    exists n: nat :: Way(c, x, x, n, f)
  }

  lemma {:induction false} WayPlaced(big: Code, b: nat, c: Code, lo: nat, x: int, n: nat, f: int)
    requires Placed(big, b, c) && Way(c, lo, x, n, f)
    ensures Way(big, b + lo, b + x, n, b + f)
    decreases n
  {
    if n > 0 {
      assert big[b + x] == c[x] && big[b + (x + 1)] == c[x + 1];
      WayPlaced(big, b, c, lo, Target(c, x), n - 1, f);
    }
  }

  lemma {:induction false} WayOn(c: Code, lo: int, x: int, n: nat, y: int, m: nat, f: int)
    requires Way(c, lo, x, n, y) && Way(c, y, y, m, f)
    ensures lo <= y && Way(c, lo, x, n + m, f)
    decreases n
  {
    if n == 0 { WayLower(c, x, lo, x, m, f); } else { WayOn(c, lo, Target(c, x), n - 1, y, m, f); }
  }

  lemma {:induction false} WayLower(c: Code, lo: int, lower: int, x: int, n: nat, f: int)
    requires Way(c, lo, x, n, f) && lower <= lo
    ensures Way(c, lower, x, n, f)
    decreases n
  {
    if n > 0 { WayLower(c, lo, lower, Target(c, x), n - 1, f); }
  }

  lemma LeadsPlaced(big: Code, b: nat, c: Code, x: nat, f: int)
    requires Placed(big, b, c) && Leads(c, x, f)
    ensures Leads(big, b + x, b + f)
  {
    var n: nat :| Way(c, x, x, n, f);
    WayPlaced(big, b, c, x, x, n, f);
  }

  lemma LeadsOn(c: Code, x: int, y: int, f: int)
    requires Leads(c, x, y) && Leads(c, y, f)
    ensures Leads(c, x, f)
  {
    var n: nat :| Way(c, x, x, n, y);
    var m: nat :| Way(c, y, y, m, f);
    WayOn(c, x, x, n, y, m, f);
  }

  lemma LeadsHere(c: Code, x: int)
    ensures Leads(c, x, x)
  {
    assert Way(c, x, x, 0, x);
  }

  lemma LeadsJump(c: Code, x: int)
    requires IsJump(c, x) && Target(c, x) >= x
    ensures Leads(c, x, Target(c, x))
  {
    assert Way(c, x, Target(c, x), 0, Target(c, x));
    assert Way(c, x, x, 1, Target(c, x));
  }

  // ---------------------------------------------------------------- how code starts

  /** At slot `f` is an instruction that is no jump, return or open call. */
  predicate Halt(c: Code, f: int) {
    0 <= f < |c| && !c[f].IJmp? && !c[f].IRet? && !c[f].IOpenCall? && !c[f].Hole?
  }

  predicate CallAt(c: Code, f: int, key: nat) {
    0 <= f && f + 1 < |c| && c[f] == IOpenCall(key)
  }

  /** Jumps from `x` lead to the end of the code, or to an instruction that is neither a jump nor a return. */
  ghost predicate GoesOn(c: Code, x: int, last: bool) {
    if last then Leads(c, x, |c|)
    else exists f :: Leads(c, x, f) && 0 <= f < |c| && !c[f].IJmp? && !c[f].IRet?
  }

  ghost predicate CallAhead(c: Code, f: int, key: nat, last: bool) {
    CallAt(c, f, key) && GoesOn(c, f + 2, last)
  }

  /** From slot `x` jumps lead where `l` says. */
  ghost predicate AheadAs(c: Code, x: int, l: Lead) {
    match l
    case Halts => exists f :: Leads(c, x, f) && Halt(c, f)
    case Ends => Leads(c, x, |c|)
    case Calls(key, last) => exists f :: Leads(c, x, f) && CallAhead(c, f, key, last)
  }

  ghost predicate StartsAs(c: Code, l: Lead) { AheadAs(c, 0, l) }

  /** The last part of code. */
  lemma AheadPlaced(c: Code, b: nat, part: Code, l: Lead)
    requires Placed(c, b, part) && b + |part| == |c| && StartsAs(part, l)
    ensures AheadAs(c, b, l)
  {
    hide Leads;
    match l
    case Halts =>
      var f :| Leads(part, 0, f) && Halt(part, f);
      LeadsPlaced(c, b, part, 0, f);
      assert c[b + f] == part[f] && Halt(c, b + f);
    case Ends => LeadsPlaced(c, b, part, 0, |part|);
    case Calls(key, last) =>
      var f :| Leads(part, 0, f) && CallAhead(part, f, key, last);
      LeadsPlaced(c, b, part, 0, f);
      assert c[b + f] == part[f];
      GoesOnPlaced(c, b, part, f + 2, last);
      assert CallAhead(c, b + f, key, last);
  }

  lemma GoesOnPlaced(c: Code, b: nat, part: Code, x: nat, last: bool)
    requires Placed(c, b, part) && b + |part| == |c| && GoesOn(part, x, last)
    ensures GoesOn(c, b + x, last)
  {
    hide Leads;
    if last {
      LeadsPlaced(c, b, part, x, |part|);
    } else {
      var f :| Leads(part, x, f) && 0 <= f < |part| && !part[f].IJmp? && !part[f].IRet?;
      LeadsPlaced(c, b, part, x, f);
      assert c[b + f] == part[f];
    }
  }

  /** Jumps to where it goes on. */
  lemma AheadFrom(c: Code, x: int, y: int, l: Lead)
    requires Leads(c, x, y) && AheadAs(c, y, l)
    ensures AheadAs(c, x, l)
  {
    hide Leads;
    match l
    case Halts =>
      var f :| Leads(c, y, f) && Halt(c, f);
      LeadsOn(c, x, y, f);
    case Ends => LeadsOn(c, x, y, |c|);
    case Calls(key, last) =>
      var f :| Leads(c, y, f) && CallAhead(c, f, key, last);
      LeadsOn(c, x, y, f);
  }

  lemma AheadGoesOn(c: Code, x: int, y: int, l: Lead)
    requires Leads(c, x, y) && AheadAs(c, y, l)
    ensures GoesOn(c, x, l.Ends?)
  {
    AheadFrom(c, x, y, l);
  }

  lemma StartsConcat(u: Code, v: Code, l1: Lead, l2: Lead)
    requires StartsAs(u, l1) && StartsAs(v, l2)
    ensures StartsAs(u + v, Then(l1, l2))
  {
    hide Leads;
    var c := u + v;
    AheadPlaced(c, |u|, v, l2);
    match l1
    case Halts =>
      var f :| Leads(u, 0, f) && Halt(u, f);
      LeadsPlaced(c, 0, u, 0, f);
      assert Halt(c, f);
    case Ends =>
      LeadsPlaced(c, 0, u, 0, |u|);
      AheadFrom(c, 0, |u|, l2);
    case Calls(key, last) =>
      var f :| Leads(u, 0, f) && CallAhead(u, f, key, last);
      LeadsPlaced(c, 0, u, 0, f);
      if last {
        LeadsPlaced(c, 0, u, f + 2, |u|);
        AheadGoesOn(c, f + 2, |u|, l2);
      } else {
        var h :| Leads(u, f + 2, h) && 0 <= h < |u| && !u[h].IJmp? && !u[h].IRet?;
        LeadsPlaced(c, 0, u, f + 2, h);
        assert c[h] == u[h];
      }
      assert CallAhead(c, f, key, last && l2.Ends?);
  }

  lemma StartsStill(c: Code)
    requires Halt(c, 0)
    ensures StartsAs(c, Halts)
  {
    LeadsHere(c, 0);
  }

  lemma StartsEmpty()
    ensures StartsAs([], Ends)
  {
    LeadsHere([], 0);
  }

  lemma StartsCall(key: nat)
    ensures StartsAs([IOpenCall(key), Hole], Calls(key, true))
  {
    var c: Code := [IOpenCall(key), Hole];
    LeadsHere(c, 0);
    LeadsHere(c, 2);
    assert CallAhead(c, 0, key, true);
  }

  lemma StartsBehind(n: int)
    ensures StartsAs(BehindCode(n), BehindLead(n))
  {
    if n > 0 { StartsStill(BehindCode(n)); } else { StartsEmpty(); }
  }

  /** Behind a test for something: if that is nothing, the test is a jump to the last part. */
  function TestLead(t: Test, l: Lead): Lead { if t.OnNothing? then l else Halts }

  lemma StartsTest(c: Code, t: Test, l: nat, tail: Code, lead: Lead)
    requires !t.NoTest? && |c| >= TestSize(t) && Placed(c, 0, TestCode(t, l))
    requires Placed(c, l, tail) && l + |tail| == |c| && StartsAs(tail, lead)
    ensures StartsAs(c, TestLead(t, lead))
  {
    hide StartsAs, AheadAs, Leads;
    var tc := TestCode(t, l);
    assert c[0 + 0] == tc[0] && c[0 + 1] == tc[1];
    if t.OnNothing? {
      LeadsJump(c, 0);
      AheadPlaced(c, l, tail, lead);
      AheadFrom(c, 0, l, lead);
      StartsIs(c, lead);
    } else {
      StartsStill(c);
    }
  }

  lemma StartsIs(c: Code, l: Lead)
    ensures StartsAs(c, l) <==> AheadAs(c, 0, l)
  {
  }

  lemma StartsChoice(t: Test, c1: Code, c2: Code, empty: bool, lead: Lead)
    requires StartsAs(c2, lead)
    ensures !t.NoTest? ==> StartsAs(ChoiceByTest(t, c1, c2, empty), TestLead(t, lead))
    ensures StartsAs(ChoiceWithEntry(t, c1, c2), TestLead(t, lead))
  {
    hide StartsAs;
    ChoiceByTestLayout(t, c1, c2, empty);
    ChoiceWithEntryLayout(t, c1, c2);
    if t.NoTest? {
      StartsStill(ChoiceWithEntry(t, c1, c2));
    } else {
      StartsTest(ChoiceByTest(t, c1, c2, empty), t, TestSize(t) + |c1| + (if empty then 0 else 2), c2, lead);
      StartsTest(ChoiceWithEntry(t, c1, c2), t, TestSize(t) + |c1| + 4, c2, lead);
    }
  }

  lemma StartsLoop(t: Test, c: Code, opt: bool)
    ensures !t.NoTest? ==> StartsAs(LoopByTest(t, c), TestLead(t, Ends))
    ensures StartsAs(LoopWithEntry(t, c, opt), TestLead(t, Ends))
  {
    hide StartsAs;
    LoopByTestLayout(t, c);
    LoopWithEntryLayout(t, c, opt);
    StartsEmpty();
    if t.NoTest? {
      StartsStill(LoopWithEntry(t, c, opt));
    } else {
      StartsTest(LoopByTest(t, c), t, |LoopByTest(t, c)|, [], Ends);
      StartsTest(LoopWithEntry(t, c, opt), t, |LoopWithEntry(t, c, opt)|, [], Ends);
    }
  }

  lemma StartsNot(t: Test, c: Code)
    ensures StartsAs(NotByTest(t), TestLead(t, Ends)) && StartsAs(NotWithEntry(t, c), TestLead(t, Ends))
  {
    hide StartsAs;
    NotWithEntryLayout(t, c);
    StartsEmpty();
    if t.NoTest? {
      StartsStill(NotByTest(t));
      StartsStill(NotWithEntry(t, c));
    } else {
      assert Placed(NotByTest(t), 0, TestCode(t, |NotByTest(t)|));
      StartsTest(NotByTest(t), t, |NotByTest(t)|, [], Ends);
      StartsTest(NotWithEntry(t, c), t, |NotWithEntry(t, c)|, [], Ends);
    }
  }

  // ---------------------------------------------------------------- generated code

  /** Following jumps in generated code ends exactly where `JumpsEnd` says; its labels stay inside in any
      case, and it starts as `LeadOf` says. */
  lemma {:induction false} GenJumps(g: Rules, k: nat, p: Tree, opt: bool, tt: Test, fl: Charset)
    requires WellFormed(g, p)
    ensures var c := Gen(g, k, p, opt, tt, fl);
            LabelsIn(c) && (Flows(c) <==> JumpsEnd(g, k, p)) && StartsAs(c, LeadOf(g, k, p))
    decreases p, 7
  {
    hide LabelsIn, Flows, StartsAs, GetFirst, HeadFail, FixedLenX, ChoiceByTest, ChoiceWithEntry, LoopByTest, LoopWithEntry,
      NotByTest, NotWithEntry, AndWithEntry, BehindCode, GrammarHead, CorrectCalls;
    match p
    case TSeq(p1, p2) =>
      var c1 := Gen(g, k, p1, false, tt, FollowOf(g, k, p1, p2, fl));
      var c2 := Gen(g, k, p2, opt, SecondTest(g, p1, tt), fl);
      GenJumps(g, k, p1, false, tt, FollowOf(g, k, p1, p2, fl));
      GenJumps(g, k, p2, opt, SecondTest(g, p1, tt), fl);
      FlowsConcat(c1, c2);
      StartsConcat(c1, c2, LeadOf(g, k, p1), LeadOf(g, k, p2));
    case TChoice(p1, p2) => ChoiceJumps(g, k, p1, p2, opt, tt, fl);
    case TRep(q) => RepJumps(g, k, q, opt, tt, fl);
    case TNot(q) =>
      var f := GetFirst(g, k, q, FULLSET);
      var t := TestOf(f.cs, f.empty);
      var c := Gen(g, k, q, false, NoTest, FULLSET);
      GenJumps(g, k, q, false, NoTest, FULLSET);
      FlowsNotByTest(t);
      FlowsNotWithEntry(t, c);
      StartsNot(t, c);
    case TAnd(q) =>
      var n := FixedLen(g, q);
      var c := Gen(g, k, q, false, tt, FULLSET);
      GenJumps(g, k, q, false, tt, FULLSET);
      if 0 <= n <= MAXBEHIND {
        FlowsBehind(n);
        FlowsConcat(c, BehindCode(n));
        StartsBehind(n);
        StartsConcat(c, BehindCode(n), LeadOf(g, k, q), BehindLead(n));
      } else {
        FlowsAndWithEntry(c);
        StartsAnd(c);
      }
    case TBehind(n, q) =>
      var c := Gen(g, k, q, false, NoTest, FULLSET);
      GenJumps(g, k, q, false, NoTest, FULLSET);
      FlowsBehind(n);
      FlowsConcat(BehindCode(n), c);
      StartsBehind(n);
      StartsConcat(BehindCode(n), c, BehindLead(n), LeadOf(g, k, q));
    case TGrammar(rs) =>
      CorrectedJumps(p, k);
      var r := CorrectCalls(GenRules(p, k, 0), Positions(p, k, 0, 0), 0);
      FlowsGrammar(r);
      StartsGrammar(r);
    case _ => LeafJumps(g, k, p, opt, tt, fl);
  }

  lemma FlowsLabels(c: Code)
    requires Flows(c)
    ensures LabelsIn(c)
  {
  }

  lemma StartsAnd(c: Code)
    ensures StartsAs(AndWithEntry(c), Halts)
  {
    StartsStill(AndWithEntry(c));
  }

  lemma StartsGrammar(r: Code)
    ensures StartsAs(GrammarHead(|r|) + r, Halts)
  {
    StartsStill(GrammarHead(|r|) + r);
  }

  lemma LeafJumps(g: Rules, k: nat, p: Tree, opt: bool, tt: Test, fl: Charset)
    requires IsCharPattern(p) || p.TTrue? || p.TFalse? || p.TCall?
    ensures var c := Gen(g, k, p, opt, tt, fl); LabelsIn(c) && Flows(c) && StartsAs(c, LeadOf(g, k, p))
  {
    hide StartsAs, Flows, LabelsIn;
    var c := Gen(g, k, p, opt, tt, fl);
    if p.TTrue? {
      FlowsOne(IAny);
      StartsEmpty();
    } else {
      if |c| == 1 { assert c == [c[0]]; FlowsOne(c[0]); } else { assert c == [c[0], c[1]]; FlowsTwo(c[0], c[1]); }
      if p.TCall? { StartsCall(RuleKey(p.rule)); } else { StartsStill(c); }
    }
    FlowsLabels(c);
  }

  /** A first set without characters settles a choice or a loop by a test that is a jump. */
  lemma NeverTest(g: Rules, k: nat, p: Tree)
    ensures HeadFail(g, k, p) ==> !GetFirst(g, k, p, FULLSET).empty
    ensures var f := GetFirst(g, k, p, FULLSET);
            && (TestOf(f.cs, f.empty).OnNothing? <==> NeverStarts(g, k, p))
            && (!f.empty ==> (TestOf(f.cs, false).OnNothing? <==> NeverStarts(g, k, p)))
  {
    if HeadFail(g, k, p) { HeadFailExact(g, k, p, [], 0, 0); }
  }

  lemma {:induction false} ChoiceJumps(g: Rules, k: nat, p1: Tree, p2: Tree, opt: bool, tt: Test, fl: Charset)
    requires WellFormed(g, TChoice(p1, p2))
    ensures var p := TChoice(p1, p2);
            var c := Gen(g, k, p, opt, tt, fl);
            LabelsIn(c) && (Flows(c) <==> JumpsEnd(g, k, p)) && StartsAs(c, LeadOf(g, k, p))
    decreases TChoice(p1, p2), 6
  {
    NeverTest(g, k, p1);
    hide LabelsIn, Flows, StartsAs, GetFirst, HeadFail, ChoiceByTest, ChoiceWithEntry;
    var p := TChoice(p1, p2);
    var f1 := GetFirst(g, k, p1, FULLSET);
    var c2 := Gen(g, k, p2, opt, NoTest, fl);
    GenJumps(g, k, p2, opt, NoTest, fl);
    if TestDecides(g, k, p1, p2, fl) {
      var t := TestOf(f1.cs, false);
      var c1 := Gen(g, k, p1, false, t, fl);
      GenJumps(g, k, p1, false, t, fl);
      FlowsChoiceByTest(t, c1, c2, p2.TTrue?);
      StartsChoice(t, c1, c2, p2.TTrue?, LeadOf(g, k, p2));
    } else if opt && p2.TTrue? {
      var c1 := Gen(g, k, p1, true, NoTest, FULLSET);
      GenJumps(g, k, p1, true, NoTest, FULLSET);
      FlowsOptional(c1);
      StartsStill([IPartialCommit, Offset(2)] + c1);
    } else {
      var t := TestOf(f1.cs, f1.empty);
      var c1 := Gen(g, k, p1, p2.TTrue?, t, FULLSET);
      GenJumps(g, k, p1, p2.TTrue?, t, FULLSET);
      FlowsChoiceWithEntry(t, c1, c2);
      StartsChoice(t, c1, c2, p2.TTrue?, LeadOf(g, k, p2));
    }
  }

  lemma {:induction false} RepJumps(g: Rules, k: nat, q: Tree, opt: bool, tt: Test, fl: Charset)
    requires WellFormed(g, TRep(q))
    ensures var p := TRep(q);
            var c := Gen(g, k, p, opt, tt, fl);
            LabelsIn(c) && (Flows(c) <==> JumpsEnd(g, k, p)) && StartsAs(c, LeadOf(g, k, p))
    decreases TRep(q), 6
  {
    NeverTest(g, k, q);
    hide LabelsIn, Flows, StartsAs, GetFirst, HeadFail, LoopByTest, LoopWithEntry;
    var f := GetFirst(g, k, q, FULLSET);
    if IsCharPattern(q) {
      FlowsTwo(ISpan, Buffer(ToCharset(q)));
      FlowsLabels([ISpan, Buffer(ToCharset(q))]);
      StartsStill([ISpan, Buffer(ToCharset(q))]);
    } else if TestDecidesLoop(g, k, q, fl) {
      var t := TestOf(f.cs, false);
      GenJumps(g, k, q, false, t, FULLSET);
      FlowsLoopByTest(t, Gen(g, k, q, false, t, FULLSET));
      StartsLoop(t, Gen(g, k, q, false, t, FULLSET), opt);
    } else {
      var c := Gen(g, k, q, false, NoTest, FULLSET);
      GenJumps(g, k, q, false, NoTest, FULLSET);
      FlowsLoopWithEntry(TestOf(f.cs, f.empty), c, opt);
      StartsLoop(TestOf(f.cs, f.empty), c, opt);
    }
  }

  // ---------------------------------------------------------------- rules

  lemma {:induction false} RulesJumps(p: Tree, k: nat, r: nat)
    requires p.TGrammar? && r <= |p.rules| && WellFormed([], p)
    ensures var c := GenRules(p, k, r);
            LabelsIn(c) && (Flows(c) <==> forall q :: r <= q < |p.rules| ==> JumpsEnd(p.rules, k, p.rules[q]))
    decreases p, 1, |p.rules| - r
  {
    hide Flows, LabelsIn, Gen, GenRules, JumpsEnd, StartsAs, LeadOf;
    FlowsOne(IRet);
    FlowsLabels([IRet]);
    FlowsLabels([]);
    if r < |p.rules| {
      var c := Gen(p.rules, k, p.rules[r], false, NoTest, FULLSET);
      GenJumps(p.rules, k, p.rules[r], false, NoTest, FULLSET);
      RulesJumps(p, k, r + 1);
      FlowsConcat(c, [IRet]);
      FlowsConcat(c + [IRet], GenRules(p, k, r + 1));
      UnfoldRules(p, k, r, 0);
    } else {
      NoRules(p, k);
    }
  }

  lemma NoRules(p: Tree, k: nat)
    requires p.TGrammar?
    ensures GenRules(p, k, |p.rules|) == [] && Positions(p, k, |p.rules|, 0) == []
  {
  }

  lemma PlacedLater(u: Code, rest: Code, b: nat, d: Code)
    requires Placed(rest, b, d)
    ensures Placed(u + rest, |u| + b, d)
  {
    forall x | 0 <= x < |d| ensures (u + rest)[|u| + b + x] == d[x] { assert rest[b + x] == d[x]; }
  }

  /** The code of a rule in the code of all of them. */
  lemma {:induction false} RuleAt(p: Tree, k: nat, r: nat, o: nat, q: nat)
    requires p.TGrammar? && r <= q < |p.rules|
    ensures var c := Gen(p.rules, k, p.rules[q], false, NoTest, FULLSET);
            var b := Positions(p, k, r, o)[q - r];
            o <= b && Placed(GenRules(p, k, r), b - o, c + [IRet])
    decreases q - r
  {
    hide Gen, GenRules, Positions;
    UnfoldRules(p, k, r, o);
    var c := Gen(p.rules, k, p.rules[r], false, NoTest, FULLSET);
    if r < q {
      hide Placed;
      RuleAt(p, k, r + 1, o + |c| + 1, q);
      var b := Positions(p, k, r, o)[q - r];
      assert b == Positions(p, k, r + 1, o + |c| + 1)[q - r - 1];
      PlacedLater(c + [IRet], GenRules(p, k, r + 1), b - o - |c| - 1,
                  Gen(p.rules, k, p.rules[q], false, NoTest, FULLSET) + [IRet]);
    }
  }

  // ---------------------------------------------------------------- calls

  ghost predicate Positioned(c: Code, ps: seq<nat>) {
    forall q :: 0 <= q < |ps| ==> ps[q] < |c|
  }

  /** `r` is `c`, code of rules at the positions `ps`, with its calls corrected. */
  ghost predicate Linked(c: Code, ps: seq<nat>, r: Code) {
    && LabelsIn(c) && Neat(c) && KeysBelow(c, |ps|) && Positioned(c, ps)
    && r == CorrectCalls(c, ps, 0) && AllCorrected(c, r, ps) && SameSettled(c, r)
  }

  lemma {:induction false} WayFinal(c: Code, lo: int, x: int, n: nat, f: int)
    requires Way(c, lo, x, n, f)
    ensures FinalTarget(c, x, n) == f
    decreases n
  {
    if n > 0 { WayFinal(c, lo, Target(c, x), n - 1, f); }
  }

  lemma {:induction false} WayStops(c: Code, lo: int, x: int, n: nat, f: int)
    requires Way(c, lo, x, n, f) && Stops(c, f)
    ensures Stops(c, x)
    decreases n
  {
    if n > 0 {
      WayStops(c, lo, Target(c, x), n - 1, f);
      StopsNext(c, x);
    }
  }

  /** Jumps that end do so behind every place on the way. */
  lemma {:induction false} WayStopped(c: Code, lo: int, x: int, n: nat, f: int, m: nat)
    requires Way(c, lo, x, n, f) && StopsAfter(c, x, m)
    ensures m >= n && StopsAfter(c, f, m - n)
    decreases n
  {
    if n > 0 { WayStopped(c, lo, Target(c, x), n - 1, f, m - 1); }
  }

  lemma {:induction false} WayKept(c: Code, r: Code, lo: int, x: int, n: nat, f: int)
    requires SameSettled(c, r) && Way(c, lo, x, n, f)
    ensures Way(r, lo, x, n, f)
    decreases n
  {
    if n > 0 {
      assert Settled(c[x]) && Settled(c[x + 1]);
      WayKept(c, r, lo, Target(c, x), n - 1, f);
    }
  }

  /** Whether the jumps from `x` end in a return shows where they first stop. */
  lemma RetAtStop(c: Code, x: int, n: nat, f: int)
    requires Way(c, x, x, n, f) && !IsJump(c, f)
    ensures EndsInRet(c, x) <==> 0 <= f < |c| && c[f].IRet?
  {
    WayFinal(c, x, x, n, f);
    if 0 <= f < |c| && c[f].IRet? { assert RetAfter(c, x, n); }
    if EndsInRet(c, x) {
      var m: nat :| RetAfter(c, x, m);
      if m <= n { StopsLater(c, x, m, n); } else { StopsLater(c, x, n, m); }
    }
  }

  /** A call becomes a jump exactly if the jumps behind it, all of them further on, lead to a return. */
  lemma {:induction false} CallBecomes(c: Code, ps: seq<nat>, i: nat, j: nat, n: nat, f: int)
    requires NeatFrom(c, i) && KeysInRange(c, |ps|) && i <= j < |c| && c[j].IOpenCall?
    requires Way(c, j + 2, j + 2, n, f) && !IsJump(c, f)
    ensures CorrectCalls(c, ps, i)[j] == if 0 <= f < |c| && c[f].IRet? then IJmp else ICall
    decreases |c| - i
  {
    hide EndsInRet, FinalTarget;
    assert SlotNeat(c, i) && SlotNeat(c, j);
    if i == j {
      RetAtStop(c, j + 2, n, f);
      var d := CorrectOne(c, ps, i);
      CorrectCallsSame(d, ps, i + 2);
      assert CorrectCalls(c, ps, i) == CorrectCalls(d, ps, i + 2);
    } else if c[i].IOpenCall? {
      var d := CorrectOne(c, ps, i);
      CorrectOneKeeps(c, ps, i);
      WayBehind(c, d, j + 2, j + 2, n, f);
      assert f >= j + 2 by { WayAfter(c, j + 2, j + 2, n, f); }
      CallBecomes(d, ps, i + 2, j, n, f);
      assert CorrectCalls(c, ps, i) == CorrectCalls(d, ps, i + 2);
    } else {
      CallBecomes(c, ps, i + SizeI(c[i]), j, n, f);
    }
  }

  lemma {:induction false} WayAfter(c: Code, lo: int, x: int, n: nat, f: int)
    requires Way(c, lo, x, n, f)
    ensures f >= lo
    decreases n
  {
    if n > 0 { WayAfter(c, lo, Target(c, x), n - 1, f); }
  }

  /** A way depends on the slots from `lo` on only. */
  lemma {:induction false} WayBehind(c: Code, d: Code, lo: int, x: int, n: nat, f: int)
    requires |c| == |d| && lo >= 0 && (forall y :: lo <= y < |c| ==> c[y] == d[y]) && Way(c, lo, x, n, f)
    ensures Way(d, lo, x, n, f)
    decreases n
  {
    if n > 0 { WayBehind(c, d, lo, Target(c, x), n - 1, f); }
  }

  /** The code of a rule, in the code of all of them once their calls are corrected: from its start the jumps
      end, or lead to the start of another rule. */
  lemma RuleStart(c: Code, ps: seq<nat>, r: Code, b: nat, cq: Code, l: Lead) returns (m: nat)
    requires Linked(c, ps, r) && Placed(c, b, cq + [IRet]) && StartsAs(cq, l)
    ensures var h := NextRule(l); if h >= 0 then h < |ps| && m > 0 && Way(r, 0, b, m, ps[h]) else Stops(r, b)
  {
    hide Linked, Neat, Leads, GoesOn;
    m := 0;
    RuleInside(c, b, cq);
    match l {
      case Halts =>
        var f :| Leads(cq, 0, f) && Halt(cq, f);
        LeadsPlaced(c, b, cq, 0, f);
        assert c[b + f] == cq[f];
        LinkedStop(c, ps, r, b, b + f);
      case Ends =>
        LeadsPlaced(c, b, cq, 0, |cq|);
        LinkedStop(c, ps, r, b, b + |cq|);
      case Calls(key, last) =>
        var f :| Leads(cq, 0, f) && CallAhead(cq, f, key, last);
        LeadsPlaced(c, b, cq, 0, f);
        assert c[b + f] == cq[f];
        TailOrCall(c, b, cq, f, last);
        m := LinkedCall(c, ps, r, b, b + f, last);
    }
  }

  lemma RuleInside(c: Code, b: nat, cq: Code)
    requires Placed(c, b, cq + [IRet])
    ensures Placed(c, b, cq) && b + |cq| < |c| && c[b + |cq|] == IRet
  {
    assert (cq + [IRet])[|cq|] == IRet;
    forall x | 0 <= x < |cq| ensures c[b + x] == cq[x] { assert (cq + [IRet])[x] == cq[x]; }
  }

  /** Jumps that lead to an instruction without a call end in corrected code too. */
  lemma LinkedStop(c: Code, ps: seq<nat>, r: Code, x: nat, f: nat)
    requires Linked(c, ps, r) && Leads(c, x, f) && f < |c|
    requires !c[f].IJmp? && !c[f].IOpenCall? && !c[f].Hole?
    ensures Stops(r, x)
  {
    var n: nat :| Way(c, x, x, n, f);
    WayKept(c, r, x, x, n, f);
    assert Corrected(c, r, ps, f);
    StopsHere(r, f);
    WayStops(r, x, x, n, f);
  }

  /** What jumps behind a call in the code of a rule lead to: the return of the rule, or something else. */
  ghost predicate Behind(c: Code, x: int, ret: bool) {
    exists f :: Leads(c, x, f) && 0 <= f < |c| && !c[f].IJmp? && (c[f].IRet? <==> ret)
  }

  lemma TailOrCall(c: Code, b: nat, cq: Code, f: nat, last: bool)
    requires Placed(c, b, cq) && b + |cq| < |c| && c[b + |cq|] == IRet && GoesOn(cq, f + 2, last)
    ensures Behind(c, b + f + 2, last)
  {
    if last {
      LeadsPlaced(c, b, cq, f + 2, |cq|);
    } else {
      var h :| Leads(cq, f + 2, h) && 0 <= h < |cq| && !cq[h].IJmp? && !cq[h].IRet?;
      LeadsPlaced(c, b, cq, f + 2, h);
      assert c[b + h] == cq[h];
    }
  }

  /** Jumps that lead to a call. */
  lemma LinkedCall(c: Code, ps: seq<nat>, r: Code, x: nat, f: nat, last: bool) returns (m: nat)
    requires Linked(c, ps, r) && Leads(c, x, f) && f < |c| && c[f].IOpenCall? && Behind(c, f + 2, last)
    ensures c[f].key < |ps|
    ensures if last then m > 0 && Way(r, 0, x, m, ps[c[f].key]) else Stops(r, x)
  {
    var n: nat :| Way(c, x, x, n, f);
    WayKept(c, r, x, x, n, f);
    CallLinked(c, ps, r, f, last);
    m := 0;
    if last {
      m := n + 1;
      WayLower(r, x, 0, x, n, f);
      WayStep(r, 0, x, n, f, ps[c[f].key]);
    } else {
      StopsHere(r, f);
      WayStops(r, x, x, n, f);
    }
  }

  lemma CallLinked(c: Code, ps: seq<nat>, r: Code, f: nat, last: bool)
    requires Linked(c, ps, r) && f < |c| && c[f].IOpenCall? && Behind(c, f + 2, last)
    ensures c[f].key < |ps|
    ensures if last then IsJump(r, f) && Target(r, f) == ps[c[f].key] else r[f].ICall?
  {
    assert c[f] in c && Corrected(c, r, ps, f);
    var h :| Leads(c, f + 2, h) && 0 <= h < |c| && !c[h].IJmp? && (c[h].IRet? <==> last);
    var n: nat :| Way(c, f + 2, f + 2, n, h);
    assert KeysInRange(c, |ps|) by { forall x | 0 <= x < |c| && c[x].IOpenCall? ensures c[x].key < |ps| { assert c[x] in c; } }
    CallBecomes(c, ps, 0, f, n, h);
  }

  /** One jump more. */
  lemma {:induction false} WayStep(c: Code, lo: int, x: int, n: nat, f: int, y: int)
    requires Way(c, lo, x, n, f) && IsJump(c, f) && Target(c, f) == y && lo <= y
    ensures Way(c, lo, x, n + 1, y)
    decreases n
  {
    if n > 0 { WayStep(c, lo, Target(c, x), n - 1, f, y); } else { assert Way(c, lo, y, 0, y); }
  }

  lemma RulesLinked(p: Tree, k: nat)
    requires p.TGrammar? && WellFormed([], p)
    ensures var c, ps := GenRules(p, k, 0), Positions(p, k, 0, 0);
            Linked(c, ps, CorrectCalls(c, ps, 0))
    decreases p, 2
  {
    hide LabelsIn, Flows, Neat, KeysBelow, AllCorrected, SameSettled, CorrectCalls;
    var c, ps := GenRules(p, k, 0), Positions(p, k, 0, 0);
    RulesJumps(p, k, 0);
    RulesNeat(p, k, 0);
    RulesKeys(p, k, 0);
    CorrectedSettled(c, ps);
    KeepsSettled(c, ps);
    forall q | 0 <= q < |p.rules| ensures ps[q] < |c| { RuleAt(p, k, 0, 0, q); }
  }

  lemma KeepsSettled(c: Code, ps: seq<nat>)
    requires Neat(c) && KeysBelow(c, |ps|)
    ensures SameSettled(c, CorrectCalls(c, ps, 0))
  {
    assert KeysInRange(c, |ps|) by { forall x | 0 <= x < |c| && c[x].IOpenCall? ensures c[x].key < |ps| { assert c[x] in c; } }
    CorrectCallsShape(c, ps, 0);
  }

  /** From the start of rule `q` the jumps end, or lead to the start of the rule `Hop` says. */
  lemma RuleHop(p: Tree, k: nat, q: nat) returns (m: nat)
    requires p.TGrammar? && WellFormed([], p) && q < |p.rules|
    ensures var ps := Positions(p, k, 0, 0);
            var r := CorrectCalls(GenRules(p, k, 0), ps, 0);
            var h := Hop(p.rules, k, q);
            if h >= 0 then h < |ps| && m > 0 && Way(r, 0, ps[q], m, ps[h]) else Stops(r, ps[q])
    decreases p, 3
  {
    hide Gen, GenRules, Positions, CorrectCalls, Linked, Placed, StartsAs, LabelsIn, Flows, JumpsEnd, LeadOf, NextRule, Stops, Way;
    RulesLinked(p, k);
    RuleAt(p, k, 0, 0, q);
    GenJumps(p.rules, k, p.rules[q], false, NoTest, FULLSET);
    var c, ps := GenRules(p, k, 0), Positions(p, k, 0, 0);
    m := RuleStart(c, ps, CorrectCalls(c, ps, 0), ps[q],
                   Gen(p.rules, k, p.rules[q], false, NoTest, FULLSET), LeadOf(p.rules, k, p.rules[q]));
  }

  /** Where jumps from rule to rule have an end, the jumps in the code have. */
  lemma {:induction false} HopsGive(p: Tree, k: nat, q: nat, n: nat)
    requires p.TGrammar? && WellFormed([], p) && q < |p.rules| && Hops(p.rules, k, q, n) < 0
    ensures var ps := Positions(p, k, 0, 0);
            Stops(CorrectCalls(GenRules(p, k, 0), ps, 0), ps[q])
    decreases p, 4, n
  {
    hide GenRules, Positions, CorrectCalls, WellFormed, Stops, Hop;
    var ps := Positions(p, k, 0, 0);
    var m := RuleHop(p, k, q);
    var h := Hop(p.rules, k, q);
    if h >= 0 {
      HopsGive(p, k, h, n - 1);
      WayStops(CorrectCalls(GenRules(p, k, 0), ps, 0), 0, ps[q], m, ps[h]);
    }
  }

  /** And the other way round. */
  lemma {:induction false} StopsGive(p: Tree, k: nat, q: nat, n: nat)
    requires p.TGrammar? && WellFormed([], p) && q < |p.rules|
    requires var ps := Positions(p, k, 0, 0); StopsAfter(CorrectCalls(GenRules(p, k, 0), ps, 0), ps[q], n)
    ensures HasEnd(p.rules, k, q)
    decreases p, 4, n
  {
    hide GenRules, Positions, CorrectCalls, WellFormed, Hop;
    var ps := Positions(p, k, 0, 0);
    var m := RuleHop(p, k, q);
    var h := Hop(p.rules, k, q);
    if h >= 0 {
      WayStopped(CorrectCalls(GenRules(p, k, 0), ps, 0), 0, ps[q], m, ps[h], n);
      StopsGive(p, k, h, n - m);
      var l: nat :| Hops(p.rules, k, h, l) < 0;
      assert Hops(p.rules, k, q, l + 1) < 0;
    } else {
      assert Hops(p.rules, k, q, 1) < 0;
    }
  }

  /** Where a stopped chain of jumps in `c` gets to, the chain in corrected code gets to as well. */
  lemma {:induction false} CorrectedChain(c: Code, r: Code, x: int, n: nat)
    requires SameSettled(c, r)
    requires StopsAfter(c, x, n) && Stops(r, FinalTarget(c, x, n))
    ensures Stops(r, x)
    decreases n
  {
    if IsJump(c, x) {
      assert Settled(c[x]) && Settled(c[x + 1]);
      CorrectedChain(c, r, Target(c, x), n - 1);
      StopsNext(r, x);
    }
  }

  /** Correcting calls makes no chain of jumps end. */
  lemma {:induction false} FewerJumps(c: Code, r: Code, x: int, n: nat)
    requires SameSettled(c, r) && StopsAfter(r, x, n)
    ensures Stops(c, x)
    decreases n
  {
    if IsJump(c, x) {
      assert Settled(c[x]) && Settled(c[x + 1]);
      FewerJumps(c, r, Target(c, x), n - 1);
      StopsNext(c, x);
    } else {
      StopsHere(c, x);
    }
  }

  /** Slot `f`, no jump before the calls were corrected, is none after, or jumps to a rule. */
  lemma CorrectedStop(c: Code, r: Code, ps: seq<nat>, f: int)
    requires AllCorrected(c, r, ps) && Neat(c) && LabelsIn(c) && !IsJump(c, f)
    requires forall q :: 0 <= q < |ps| ==> Stops(r, ps[q])
    ensures Stops(r, f)
  {
    if 0 <= f < |c| {
      assert Settled(r[f]) && Corrected(c, r, ps, f);
      if c[f].IOpenCall? {
        if IsJump(r, f) { StopsNext(r, f); } else { StopsHere(r, f); }
      } else {
        assert LabelIn(c, f) && SlotNeat(c, f);
        if c[f].Hole? {
          assert Corrected(c, r, ps, f - 1);
        } else if f + 1 < |c| {
          assert SlotNeat(c, f + 1) && Corrected(c, r, ps, f + 1);
        }
        StopsHere(r, f);
      }
    } else {
      StopsHere(r, f);
    }
  }

  lemma CorrectedLabel(c: Code, r: Code, ps: seq<nat>, x: nat)
    requires Linked(c, ps, r) && x < |c|
    ensures LabelIn(r, x)
  {
    assert c[x] in c && Settled(r[x]) && Corrected(c, r, ps, x) && SlotNeat(c, x) && LabelIn(c, x);
    if c[x].Hole? { assert Corrected(c, r, ps, x - 1); }
    if TakesLabel(c[x]) { assert Corrected(c, r, ps, x + 1); }
  }

  /** Corrected code flows if the code before did and from the start of every rule the jumps end. */
  lemma LinkedFlows(c: Code, ps: seq<nat>, r: Code)
    requires Linked(c, ps, r)
    ensures LabelsIn(r)
    ensures Flows(r) <==> Flows(c) && forall q :: 0 <= q < |ps| ==> Stops(r, ps[q])
  {
    hide CorrectCalls, Stops, FinalTarget, Neat, KeysBelow;
    forall x | 0 <= x < |c| ensures LabelIn(r, x) { CorrectedLabel(c, r, ps, x); }
    if Flows(r) {
      forall x | 0 <= x < |c| ensures Stops(c, x) { StopsBefore(c, r, x); }
    }
    if Flows(c) && forall q :: 0 <= q < |ps| ==> Stops(r, ps[q]) {
      forall x | 0 <= x < |c| ensures Stops(r, x) { StopsThen(c, r, ps, x); }
    }
  }

  lemma StopsBefore(c: Code, r: Code, x: nat)
    requires SameSettled(c, r) && Stops(r, x)
    ensures Stops(c, x)
  {
    var n: nat :| StopsAfter(r, x, n);
    FewerJumps(c, r, x, n);
  }

  lemma StopsThen(c: Code, r: Code, ps: seq<nat>, x: nat)
    requires Linked(c, ps, r) && Stops(c, x) && forall q :: 0 <= q < |ps| ==> Stops(r, ps[q])
    ensures Stops(r, x)
  {
    hide Neat, CorrectCalls, KeysBelow;
    var n: nat :| StopsAfter(c, x, n);
    CorrectedStop(c, r, ps, FinalTarget(c, x, n));
    CorrectedChain(c, r, x, n);
  }

  /** The jumps in the corrected code of a grammar end if those in its rules do and those from rule to rule. */
  lemma {:induction false} CorrectedJumps(p: Tree, k: nat)
    requires p.TGrammar? && WellFormed([], p)
    ensures var r := CorrectCalls(GenRules(p, k, 0), Positions(p, k, 0, 0), 0);
            LabelsIn(r) && (Flows(r) <==> JumpsEnd([], k, p))
    decreases p, 5
  {
    hide Gen, GenRules, Positions, CorrectCalls, Linked, Flows, Stops, LabelsIn, WellFormed;
    var c, ps := GenRules(p, k, 0), Positions(p, k, 0, 0);
    var r := CorrectCalls(c, ps, 0);
    RulesLinked(p, k);
    RulesJumps(p, k, 0);
    LinkedFlows(c, ps, r);
    if TailsEnd(p.rules, k) {
      forall q | 0 <= q < |ps| ensures Stops(r, ps[q]) { HopsGive(p, k, q, |p.rules|); }
    }
    if forall q :: 0 <= q < |ps| ==> Stops(r, ps[q]) {
      forall q: nat | q < |p.rules| ensures HasEnd(p.rules, k, q) { StopEnds(p, k, q); }
      SomeEnd(p.rules, k);
    }
  }

  lemma StopEnds(p: Tree, k: nat, q: nat)
    requires p.TGrammar? && WellFormed([], p) && q < |p.rules|
    requires var ps := Positions(p, k, 0, 0); Stops(CorrectCalls(GenRules(p, k, 0), ps, 0), ps[q])
    ensures HasEnd(p.rules, k, q)
    decreases p, 4
  {
    hide GenRules, Positions, CorrectCalls, WellFormed;
    var ps := Positions(p, k, 0, 0);
    var n: nat :| StopsAfter(CorrectCalls(GenRules(p, k, 0), ps, 0), ps[q], n);
    StopsGive(p, k, q, n);
  }

  // ---------------------------------------------------------------- without left recursion

  /** Jumps lead to calls that the pattern may make first, and to its end only if it may match without consuming. */
  lemma {:induction false} LeadLeft(g: Rules, k: nat, p: Tree)
    requires WellFormed(g, p)
    ensures match LeadOf(g, k, p)
            case Halts => true
            case Ends => Nullable(g, k, p)
            case Calls(key, _) => key in LeftCalls(g, k, p)
    decreases p
  {
    match p
    case TSeq(p1, p2) => LeadLeft(g, k, p1); LeadLeft(g, k, p2);
    case TChoice(p1, p2) => LeadLeft(g, k, p2);
    case TAnd(q) => LeadLeft(g, k, q);
    case TBehind(_, q) => LeadLeft(g, k, q);
    case _ =>
  }

  lemma {:induction false} RanksFall(rs: Rules, k: nat, rank: seq<nat>, r: nat, n: nat)
    requires Ranking(rs, k, rank) && r < |rs| && forall q :: 0 <= q < |rs| ==> WellFormed(rs, rs[q])
    requires n > 0 && Hops(rs, k, r, n) >= 0
    ensures Hops(rs, k, r, n) < |rs| && rank[Hops(rs, k, r, n)] < rank[r]
    decreases n
  {
    LeadLeft(rs, k, rs[r]);
    assert RanksAbove(rs, k, rank, r);
    if n > 1 { RanksFall(rs, k, rank, Hop(rs, k, r), n - 1); }
  }

  lemma RankedTails(rs: Rules, k: nat, rank: seq<nat>)
    requires Ranking(rs, k, rank) && forall q :: 0 <= q < |rs| ==> WellFormed(rs, rs[q])
    ensures TailsEnd(rs, k)
  {
    forall r: nat | r < |rs| ensures !ComesBack(rs, k, r) {
      if n: nat :| n > 0 && Hops(rs, k, r, n) == r { RanksFall(rs, k, rank, r, n); }
    }
    TailsEndExact(rs, k);
  }

  /** The jumps of a pattern without left recursion end. */
  lemma {:induction false} NotLeftJumps(g: Rules, k: nat, p: Tree)
    requires WellFormed(g, p) && NotLeftRecursive(k, p)
    ensures JumpsEnd(g, k, p)
    decreases p
  {
    match p
    case TRep(q) => NotLeftJumps(g, k, q);
    case TNot(q) => NotLeftJumps(g, k, q);
    case TAnd(q) => NotLeftJumps(g, k, q);
    case TBehind(_, q) => NotLeftJumps(g, k, q);
    case TSeq(p1, p2) => NotLeftJumps(g, k, p1); NotLeftJumps(g, k, p2);
    case TChoice(p1, p2) => NotLeftJumps(g, k, p1); NotLeftJumps(g, k, p2);
    case TGrammar(rs) =>
      var rank :| Ranking(rs, k, rank);
      RankedTails(rs, k, rank);
      forall r | 0 <= r < |rs| ensures JumpsEnd(rs, k, rs[r]) { NotLeftJumps(rs, k, rs[r]); }
    case _ =>
  }

  /** So its code flows. */
  lemma GenFlows(g: Rules, k: nat, p: Tree, opt: bool, tt: Test, fl: Charset)
    requires WellFormed(g, p) && NotLeftRecursive(k, p)
    ensures Flows(Gen(g, k, p, opt, tt, fl))
  {
    NotLeftJumps(g, k, p);
    GenJumps(g, k, p, opt, tt, fl);
  }
}
