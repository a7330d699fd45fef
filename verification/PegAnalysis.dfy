/** The static analyses the code generator relies on, and why they can be relied on.

    Every analysis follows calls into rules.  The original follows them as far as they go;
    `k` bounds how many calls in a row are followed, and an analysis that runs out answers
    conservatively, so what is proved here holds whatever the bound.  For patterns without left
    recursion a large enough bound changes nothing; see `PegStable.CodeStable`. */
module PegAnalysis {
  import opened PegTree

  const MAXRULES := 1000
  const MAXBEHIND := 255

  datatype Question = PEnullable | PEnofail

  /** `PEnullable`: can `p` match without consuming?  `PEnofail`: is it sure not to fail? */
  function CheckAux(g: Rules, k: nat, p: Tree, pred: Question): bool
    decreases k, p
  {
    match p
    case TChar(_) => false
    case TSet(_) => false
    case TAny => false
    case TFalse => false
    case TRep(_) => true
    case TTrue => true
    case TNot(_) => pred == PEnullable
    case TBehind(_, _) => pred == PEnullable
    case TAnd(q) => pred == PEnullable || CheckAux(g, k, q, pred)
    case TSeq(p1, p2) => CheckAux(g, k, p1, pred) && CheckAux(g, k, p2, pred)
    case TChoice(p1, p2) => CheckAux(g, k, p2, pred) || CheckAux(g, k, p1, pred)
    case TGrammar(rs) => if rs == [] then pred == PEnullable else CheckAux(rs, k, rs[0], pred)
    case TCall(r) => if k == 0 || r >= |g| then pred == PEnullable else CheckAux(g, k - 1, g[r], pred)
  }

  predicate Nullable(g: Rules, k: nat, p: Tree) { CheckAux(g, k, p, PEnullable) }

  predicate NoFail(g: Rules, k: nat, p: Tree) { CheckAux(g, k, p, PEnofail) }

  /** How many characters `p` consumes, added to `len`; -1 when that varies. */
  function FixedLenX(g: Rules, p: Tree, count: nat, len: nat): int
    requires count <= MAXRULES
    decreases MAXRULES - count, p
  {
    match p
    case TChar(_) => len + 1
    case TSet(_) => len + 1
    case TAny => len + 1
    case TFalse => len
    case TTrue => len
    case TNot(_) => len
    case TAnd(_) => len
    case TBehind(_, _) => len
    case TRep(_) => -1
    case TGrammar(rs) => if rs == [] then -1 else FixedLenX(rs, rs[0], count, len)
    case TCall(r) => if count >= MAXRULES || r >= |g| then -1 else FixedLenX(g, g[r], count + 1, len)
    case TSeq(p1, p2) =>
      var n := FixedLenX(g, p1, count, len);
      if n < 0 then -1 else FixedLenX(g, p2, count, n)
    case TChoice(p1, p2) =>
      var n1 := FixedLenX(g, p1, count, len);
      if n1 < 0 then -1
      else if n1 == FixedLenX(g, p2, count, len) then n1 else -1
  }

  function FixedLen(g: Rules, p: Tree): int { FixedLenX(g, p, 0, 0) }

  /** What `getfirst` returns: a character set and whether `p` may accept the empty subject. */
  datatype First = First(cs: Charset, empty: bool)

  function GetFirst(g: Rules, k: nat, p: Tree, follow: Charset): First
    decreases k, p
  {
    match p
    case TChar(_) => First(ToCharset(p), false)
    case TSet(_) => First(ToCharset(p), false)
    case TAny => First(ToCharset(p), false)
    case TTrue => First(follow, true)
    case TFalse => First({}, false)
    case TChoice(p1, p2) =>
      var f1 := GetFirst(g, k, p1, follow);
      var f2 := GetFirst(g, k, p2, follow);
      First(f1.cs + f2.cs, f1.empty || f2.empty)
    case TSeq(p1, p2) =>
      if !Nullable(g, k, p1) then GetFirst(g, k, p1, FULLSET)
      else
        var f2 := GetFirst(g, k, p2, follow);
        var f1 := GetFirst(g, k, p1, f2.cs);
        First(f1.cs, f1.empty && f2.empty)
    case TRep(q) => First(GetFirst(g, k, q, follow).cs + follow, true)
    case TAnd(q) =>
      var f := GetFirst(g, k, q, follow);
      First(f.cs * follow, f.empty)
    case TNot(q) =>
      if IsCharPattern(q) then First(FULLSET - ToCharset(q), true) else First(follow, true)
    case TBehind(_, _) => First(follow, true)
    case TGrammar(rs) => if rs == [] then First(FULLSET, true) else GetFirst(rs, k, rs[0], follow)
    case TCall(r) => if k == 0 || r >= |g| then First(FULLSET, true) else GetFirst(g, k - 1, g[r], follow)
  }

  /** Can `p` fail only because of the next character? */
  predicate HeadFail(g: Rules, k: nat, p: Tree)
    decreases k, p
  {
    match p
    case TChar(_) => true
    case TSet(_) => true
    case TAny => true
    case TFalse => true
    case TTrue => false
    case TRep(_) => false
    case TNot(_) => false
    case TBehind(_, _) => false
    case TAnd(q) => HeadFail(g, k, q)
    case TSeq(p1, p2) => NoFail(g, k, p2) && HeadFail(g, k, p1)
    case TChoice(p1, p2) => HeadFail(g, k, p1) && HeadFail(g, k, p2)
    case TGrammar(rs) => rs != [] && HeadFail(rs, k, rs[0])
    case TCall(r) => k > 0 && r < |g| && HeadFail(g, k - 1, g[r])
  }

  /** Does the code for `p` use what follows it? */
  predicate NeedFollow(p: Tree) {
    match p
    case TChoice(_, _) => true
    case TRep(_) => true
    case TSeq(_, p2) => NeedFollow(p2)
    case _ => false
  }

  /** The rules `p` may call before it has consumed anything. */
  ghost function LeftCalls(g: Rules, k: nat, p: Tree): set<nat>
    decreases p
  {
    match p
    case TRep(q) => LeftCalls(g, k, q)
    case TNot(q) => LeftCalls(g, k, q)
    case TAnd(q) => LeftCalls(g, k, q)
    case TBehind(_, q) => LeftCalls(g, k, q)
    case TSeq(p1, p2) =>
      LeftCalls(g, k, p1) + if Nullable(g, k, p1) then LeftCalls(g, k, p2) else {}
    case TChoice(p1, p2) => LeftCalls(g, k, p1) + LeftCalls(g, k, p2)
    case TCall(r) => {r}
    case _ => {}
  }

  /** The rules can be ranked so that whatever a rule calls first has a lower rank. */
  ghost predicate Ranking(g: Rules, k: nat, rank: seq<nat>) {
    |rank| == |g| && forall r :: 0 <= r < |g| ==> RanksAbove(g, k, rank, r)
  }

  /** Rule `r` ranks above the rules it may call first. */
  ghost predicate RanksAbove(g: Rules, k: nat, rank: seq<nat>, r: nat)
    requires |rank| == |g| && r < |g|
  {
    forall c :: c in LeftCalls(g, k, g[r]) ==> c < |g| && rank[c] < rank[r]
  }

  /** No grammar in `p` is left recursive. */
  ghost predicate NotLeftRecursive(k: nat, p: Tree)
    decreases p
  {
    match p
    case TRep(q) => NotLeftRecursive(k, q)
    case TNot(q) => NotLeftRecursive(k, q)
    case TAnd(q) => NotLeftRecursive(k, q)
    case TBehind(_, q) => NotLeftRecursive(k, q)
    case TSeq(p1, p2) => NotLeftRecursive(k, p1) && NotLeftRecursive(k, p2)
    case TChoice(p1, p2) => NotLeftRecursive(k, p1) && NotLeftRecursive(k, p2)
    case TGrammar(rs) =>
      && (exists rank :: Ranking(rs, k, rank))
      && forall r :: 0 <= r < |rs| ==> NotLeftRecursive(k, rs[r])
    case _ => true
  }

  /** What building a tree guarantees: calls name rules of the grammar they are in, a look-behind
      knows its length, a grammar has at most MAXRULES rules.  That rule numbers fit the byte they
      are kept in is not guaranteed by the original; see `PegLimits.RuleNumbersWrap`. */
  predicate WellFormed(g: Rules, p: Tree)
    decreases p
  {
    match p
    case TRep(q) => WellFormed(g, q)
    case TNot(q) => WellFormed(g, q)
    case TAnd(q) => WellFormed(g, q)
    case TSeq(p1, p2) => WellFormed(g, p1) && WellFormed(g, p2)
    case TChoice(p1, p2) => WellFormed(g, p1) && WellFormed(g, p2)
    case TBehind(n, q) => 0 <= n <= MAXBEHIND && n == FixedLen(g, q) && WellFormed(g, q)
    case TCall(r) => r < |g| && r < 256
    case TGrammar(rs) => 0 < |rs| <= MAXRULES && forall r :: 0 <= r < |rs| ==> WellFormed(rs, rs[r])
    case _ => true
  }

  // ---------------------------------------------------------------- soundness

  /** A pattern that matches without consuming is found nullable. */
  lemma {:induction false} NullableSound(g: Rules, k: nat, p: Tree, s: seq<byte>, i: nat, n: nat)
    requires i <= |s| && Eval(g, p, s, i, n) == Match(i)
    ensures Nullable(g, k, p)
    decreases k, p
  {
    match p
    case TSeq(p1, p2) =>
      NullableSound(g, k, p1, s, i, n);
      NullableSound(g, k, p2, s, i, n);
    case TChoice(p1, p2) =>
      if Eval(g, p1, s, i, n).Fail? { NullableSound(g, k, p2, s, i, n); }
      else { NullableSound(g, k, p1, s, i, n); }
    case TGrammar(rs) => NullableSound(rs, k, rs[0], s, i, n);
    case TCall(r) => if k > 0 { NullableSound(g, k - 1, g[r], s, i, n - 1); }
    case _ =>
  }

  /** A pattern found unable to fail does not fail. */
  lemma {:induction false} NoFailSound(g: Rules, k: nat, p: Tree, s: seq<byte>, i: nat, n: nat)
    requires i <= |s| && NoFail(g, k, p)
    ensures !Eval(g, p, s, i, n).Fail?
    decreases n, p
  {
    match p
    case TRep(q) =>
      var a := Eval(g, q, s, i, n);
      if a.Match? && n > 0 { NoFailSound(g, k, p, s, a.pos, n - 1); }
    case TAnd(q) => NoFailSound(g, k, q, s, i, n);
    case TSeq(p1, p2) =>
      NoFailSound(g, k, p1, s, i, n);
      var a := Eval(g, p1, s, i, n);
      if a.Match? { NoFailSound(g, k, p2, s, a.pos, n); }
    case TChoice(p1, p2) =>
      if NoFail(g, k, p1) { NoFailSound(g, k, p1, s, i, n); }
      else { NoFailSound(g, k, p2, s, i, n); }
    case TGrammar(rs) => if rs != [] { NoFailSound(rs, k, rs[0], s, i, n); }
    case TCall(r) => if n > 0 && r < |g| { NoFailSound(g, k - 1, g[r], s, i, n - 1); }
    case _ =>
  }

  /** A pattern found unable to fail is found nullable. */
  lemma {:induction false} NoFailNullable(g: Rules, k: nat, p: Tree)
    requires NoFail(g, k, p)
    ensures Nullable(g, k, p)
    decreases k, p
  {
    match p
    case TSeq(p1, p2) => NoFailNullable(g, k, p1); NoFailNullable(g, k, p2);
    case TChoice(p1, p2) => if NoFail(g, k, p1) { NoFailNullable(g, k, p1); } else { NoFailNullable(g, k, p2); }
    case TGrammar(rs) => NoFailNullable(rs, k, rs[0]);
    case TCall(r) => NoFailNullable(g, k - 1, g[r]);
    case _ =>
  }

  /** Both questions: what consumes nothing is nullable, what cannot fail does not, and is nullable. */
  lemma CheckAuxSound(g: Rules, k: nat, p: Tree, s: seq<byte>, i: nat, n: nat)
    requires i <= |s|
    ensures Eval(g, p, s, i, n) == Match(i) ==> Nullable(g, k, p)
    ensures NoFail(g, k, p) ==> !Eval(g, p, s, i, n).Fail? && Nullable(g, k, p)
  {
    if Eval(g, p, s, i, n) == Match(i) { NullableSound(g, k, p, s, i, n); }
    if NoFail(g, k, p) {
      NoFailSound(g, k, p, s, i, n);
      NoFailNullable(g, k, p);
    }
  }

  /** A pattern found to have a fixed length consumes exactly that many characters. */
  lemma {:induction false} FixedLenSound(
      g: Rules, p: Tree, count: nat, len: nat, s: seq<byte>, i: nat, n: nat)
    requires i <= |s| && count <= MAXRULES
    requires FixedLenX(g, p, count, len) >= 0
    requires Eval(g, p, s, i, n).Match?
    ensures Eval(g, p, s, i, n).pos == i + FixedLenX(g, p, count, len) - len
    decreases n, p
  {
    match p
    case TSeq(p1, p2) =>
      FixedLenSound(g, p1, count, len, s, i, n);
      FixedLenSound(g, p2, count, FixedLenX(g, p1, count, len), s, Eval(g, p1, s, i, n).pos, n);
    case TChoice(p1, p2) =>
      if Eval(g, p1, s, i, n).Match? { FixedLenSound(g, p1, count, len, s, i, n); }
      else { FixedLenSound(g, p2, count, len, s, i, n); }
    case TGrammar(rs) => FixedLenSound(rs, rs[0], count, len, s, i, n);
    case TCall(r) => FixedLenSound(g, g[r], count + 1, len, s, i, n - 1);
    case _ =>
  }

  /** First sets are sound.  A match that starts at a character and either consumes it or is
      followed by it needs that character in the first set; and a pattern whose `empty` flag is
      off fails at the end of the subject. */
  lemma {:induction false} GetFirstSound(
      g: Rules, k: nat, p: Tree, follow: Charset, s: seq<byte>, i: nat, n: nat)
    requires i <= |s|
    ensures var a := Eval(g, p, s, i, n);
            i < |s| && a.Match? && (a.pos > i || s[i] in follow) ==> s[i] in GetFirst(g, k, p, follow).cs
    ensures i == |s| && !GetFirst(g, k, p, follow).empty ==> !Eval(g, p, s, i, n).Match?
    decreases n, p
  {
    match p
    case TChoice(p1, p2) =>
      GetFirstSound(g, k, p1, follow, s, i, n);
      GetFirstSound(g, k, p2, follow, s, i, n);
    case TSeq(p1, p2) =>
      var a := Eval(g, p1, s, i, n);
      if Nullable(g, k, p1) {
        var f2 := GetFirst(g, k, p2, follow);
        GetFirstSound(g, k, p1, f2.cs, s, i, n);
        if a.Match? { GetFirstSound(g, k, p2, follow, s, a.pos, n); }
      } else {
        GetFirstSound(g, k, p1, FULLSET, s, i, n);
        if a == Match(i) { NullableSound(g, k, p1, s, i, n); }
      }
    case TRep(q) =>
      GetFirstSound(g, k, q, follow, s, i, n);
      var a := Eval(g, q, s, i, n);
      if a == Match(i) && n > 0 { GetFirstSound(g, k, p, follow, s, i, n - 1); }
    case TAnd(q) => GetFirstSound(g, k, q, follow, s, i, n);
    case TGrammar(rs) => if rs != [] { GetFirstSound(rs, k, rs[0], follow, s, i, n); }
    case TCall(r) =>
      if n > 0 && r < |g| && k > 0 { GetFirstSound(g, k - 1, g[r], follow, s, i, n - 1); }
    case _ =>
  }

  /** A larger follow set gives a larger first set. */
  lemma {:induction false} GetFirstMonotone(g: Rules, k: nat, p: Tree, f1: Charset, f2: Charset)
    requires f1 <= f2
    ensures GetFirst(g, k, p, f1).cs <= GetFirst(g, k, p, f2).cs
    ensures GetFirst(g, k, p, f1).empty == GetFirst(g, k, p, f2).empty
    decreases k, p
  {
    match p
    case TChoice(p1, p2) =>
      GetFirstMonotone(g, k, p1, f1, f2);
      GetFirstMonotone(g, k, p2, f1, f2);
    case TSeq(p1, p2) =>
      GetFirstMonotone(g, k, p2, f1, f2);
      GetFirstMonotone(g, k, p1, GetFirst(g, k, p2, f1).cs, GetFirst(g, k, p2, f2).cs);
    case TRep(q) => GetFirstMonotone(g, k, q, f1, f2);
    case TAnd(q) => GetFirstMonotone(g, k, q, f1, f2);
    case TGrammar(rs) => if rs != [] { GetFirstMonotone(rs, k, rs[0], f1, f2); }
    case TCall(r) => if r < |g| && k > 0 { GetFirstMonotone(g, k - 1, g[r], f1, f2); }
    case _ =>
  }

  /** The first set of a head-fail pattern is exact: a test of the next character decides
      whether the pattern matches, and the end of the subject decides against it. */
  lemma {:induction false} HeadFailExact(g: Rules, k: nat, p: Tree, s: seq<byte>, i: nat, n: nat)
    requires i <= |s| && HeadFail(g, k, p)
    ensures i < |s| && s[i] in GetFirst(g, k, p, FULLSET).cs ==> !Eval(g, p, s, i, n).Fail?
    ensures i < |s| && s[i] !in GetFirst(g, k, p, FULLSET).cs ==> !Eval(g, p, s, i, n).Match?
    ensures i == |s| ==> !Eval(g, p, s, i, n).Match?
    ensures !GetFirst(g, k, p, FULLSET).empty
    decreases k, p
  {
    GetFirstSound(g, k, p, FULLSET, s, i, n);
    match p
    case TChoice(p1, p2) =>
      HeadFailExact(g, k, p1, s, i, n);
      HeadFailExact(g, k, p2, s, i, n);
    case TSeq(p1, p2) =>
      HeadFailExact(g, k, p1, s, i, n);
      var f2 := GetFirst(g, k, p2, FULLSET);
      GetFirstMonotone(g, k, p1, f2.cs, FULLSET);
      var a := Eval(g, p1, s, i, n);
      if a.Match? { NoFailSound(g, k, p2, s, a.pos, n); }
    case TAnd(q) => HeadFailExact(g, k, q, s, i, n);
    case TGrammar(rs) => HeadFailExact(rs, k, rs[0], s, i, n);
    case TCall(r) =>
      if n > 0 { HeadFailExact(g, k - 1, g[r], s, i, n - 1); }
      else { HeadFailExact(g, k - 1, g[r], s, i, n); }
    case _ =>
  }
}
