/** What reading, updating and clearing come to: from their beginning to their end, whatever other agents do in
    between, and that they do come to an end for an agent that is left alone. */
module StmRuns {
  import opened RwLock
  import opened Stm

  /** From state `b` to state `e` of a run agent `i` does one thing: it is idle there and nowhere in between. */
  ghost predicate Does(run: seq<Shared>, b: nat, e: nat, i: nat) {
    && Execution(run) && b + 1 < e < |run| && (forall j :: b <= j <= e ==> i < |run[j].agents|)
    && run[b].agents[i].at.Idle? && run[e].agents[i].at.Idle?
    && forall j :: b < j < e ==> !run[j].agents[i].at.Idle?
  }

  /** The object pointed at `p` in a state after `b`, up to state `j`. */
  ghost predicate Was(run: seq<Shared>, b: nat, j: nat, p: int) {
    exists m: nat :: b < m <= j && m < |run| && run[m].copy == p
  }

  lemma WasLater(run: seq<Shared>, b: nat, j: nat, k: nat, p: int)
    requires Was(run, b, j, p) && j <= k
    ensures Was(run, b, k, p)
  {
  }

  /** Agent `x` has loaded pointer `p` to read it, or keeps it in the end. */
  predicate Keeps(x: Agent, p: int) {
    match x.at
    case ReadGot(got) => got == p
    case ReadHave(got) => got == p
    case ReadDone(got) => got == p
    case Drop(_, keep) => keep == p
    case Free(_, keep) => keep == p
    case Idle => x.last == p
    case _ => false
  }

  lemma KeepsTurn(s: Shared, i: nat, a: Start, p: int)
    requires Proper(s) && Ready(s, i, a) && !s.agents[i].at.Idle? && Keeps(s.agents[i], p)
    ensures i < |Turn(s, i, a).agents| && Keeps(Turn(s, i, a).agents[i], p)
  {
    assert Known(s.agents[i], |s.copies|);
    hide Proper;
  }

  /** An agent changes in its own turns only. */
  lemma TurnOf(s: Shared, t: Shared, i: nat) returns (a: Start, own: bool)
    requires Follows(s, t) && i < |s.agents|
    ensures i < |t.agents|
    ensures own ==> Ready(s, i, a) && Proper(s) && t == Turn(s, i, a)
    ensures !own ==> t.agents[i] == s.agents[i]
  {
    hide Turn;
    if s == t {
      a, own := Proceed, false;
    } else {
      var j: nat, b :| Ready(s, j, b) && Proper(s) && t == Turn(s, j, b);
      TurnAgents(s, j, b);
      a, own := b, j == i;
    }
  }

  lemma KeepsNext(s: Shared, t: Shared, i: nat, p: int)
    requires Follows(s, t) && i < |s.agents| && !s.agents[i].at.Idle? && Keeps(s.agents[i], p)
    ensures i < |t.agents| && Keeps(t.agents[i], p)
  {
    hide Turn;
    var a, own := TurnOf(s, t, i);
    if own { KeepsTurn(s, i, a, p); }
  }

  /** What an agent keeps it keeps until it is idle again. */
  lemma {:induction false} KeepsOn(run: seq<Shared>, b: nat, e: nat, i: nat, j: nat, p: int)
    requires Does(run, b, e, i) && b < j <= e && Keeps(run[j].agents[i], p)
    ensures run[e].agents[i].last == p
    decreases e - j
  {
    hide Turn;
    if j < e {
      assert Follows(run[j], run[j + 1]);
      KeepsNext(run[j], run[j + 1], i, p);
      KeepsOn(run, b, e, i, j + 1, p);
    }
  }

  /** A reader that has let go of the lock ends up with the copy whose pointer it loaded. */
  lemma ReadKept(run: seq<Shared>, b: nat, e: nat, i: nat, j: nat, got: int)
    requires Does(run, b, e, i) && b < j <= e && run[j].agents[i].at == ReadDone(got)
    ensures run[e].agents[i].last == got
  {
    KeepsOn(run, b, e, i, j, got);
  }

  // ---------------------------------------------------------------- reading

  predicate ReadBegun(x: Agent) { x.at.WantRead? || x.at.ReadHold? }

  /** How far a read has come. */
  ghost predicate ReadStage(run: seq<Shared>, b: nat, j: nat, x: Agent) {
    ReadBegun(x) || exists p :: Was(run, b, j, p) && Keeps(x, p)
  }

  lemma ReadTurn(s: Shared, i: nat, a: Start)
    requires Proper(s) && Ready(s, i, a) && ReadBegun(s.agents[i])
    ensures var t := Turn(s, i, a); i < |t.agents| && (ReadBegun(t.agents[i]) || Keeps(t.agents[i], t.copy))
  {
    assert Known(s.agents[i], |s.copies|);
    hide Proper;
  }

  lemma ReadNext(run: seq<Shared>, b: nat, j: nat, i: nat)
    requires b < j && j + 1 < |run| && Follows(run[j], run[j + 1]) && i < |run[j].agents| && !run[j].agents[i].at.Idle?
    requires ReadStage(run, b, j, run[j].agents[i])
    ensures i < |run[j + 1].agents| && ReadStage(run, b, j + 1, run[j + 1].agents[i])
  {
    hide Turn;
    var s, t := run[j], run[j + 1];
    var a, own := TurnOf(s, t, i);
    if own && ReadBegun(s.agents[i]) {
      ReadTurn(s, i, a);
      if !ReadBegun(t.agents[i]) { assert Was(run, b, j + 1, t.copy); }
    } else if !ReadBegun(s.agents[i]) {
      var p :| Was(run, b, j, p) && Keeps(s.agents[i], p);
      KeepsNext(s, t, i, p);
      WasLater(run, b, j, j + 1, p);
    }
  }

  lemma {:induction false} ReadStages(run: seq<Shared>, b: nat, e: nat, i: nat, j: nat)
    requires Does(run, b, e, i) && run[b + 1].agents[i].at.WantRead? && b < j <= e
    ensures ReadStage(run, b, j, run[j].agents[i])
    decreases j
  {
    hide ReadStage;
    if j > b + 1 {
      ReadStages(run, b, e, i, j - 1);
      assert Follows(run[j - 1], run[j]);
      ReadNext(run, b, j - 1, i);
    } else {
      ReadBegins(run, b, run[j].agents[i]);
    }
  }

  lemma ReadBegins(run: seq<Shared>, b: nat, x: Agent)
    requires x.at.WantRead?
    ensures ReadStage(run, b, b + 1, x)
  {
  }

  /** When a read ends the reader has a copy that was the current one at some time since the read began. */
  lemma ReadCurrent(run: seq<Shared>, b: nat, e: nat, i: nat)
    requires Does(run, b, e, i) && run[b + 1].agents[i].at.WantRead?
    ensures exists m: nat :: b < m <= e && run[m].copy == run[e].agents[i].last
  {
    ReadStages(run, b, e, i, e);
    var p :| Was(run, b, e, p) && Keeps(run[e].agents[i], p);
  }

  // ---------------------------------------------------------------- updating, clearing, giving up

  /** Agent `x` is to make `n` the current copy, or has; it keeps `last`. */
  ghost predicate UpdateStage(run: seq<Shared>, b: nat, j: nat, x: Agent, n: int, last: int) {
    match x.at
    case WantWrite(m) => m == n && x.last == last
    case WriteHold(m) => m == n && x.last == last
    case WriteGot(m, _) => m == n && x.last == last
    case WriteStored(_) => Was(run, b, j, n) && x.last == last
    case _ => Was(run, b, j, n) && Keeps(x, last)
  }

  /** The same for NULL. */
  ghost predicate ClearStage(run: seq<Shared>, b: nat, j: nat, x: Agent, last: int) {
    match x.at
    case WantClear => x.last == last
    case ClearHold => x.last == last
    case ClearFree(_) => x.last == last
    case ClearSpent(_) => x.last == last
    case ClearNone => x.last == last
    case ClearDone => Was(run, b, j, NULL) && x.last == last
    case _ => Was(run, b, j, NULL) && Keeps(x, last)
  }

  lemma UpdateTurn(s: Shared, i: nat, a: Start)
    requires Proper(s) && Ready(s, i, a)
    ensures var x, t := s.agents[i], Turn(s, i, a);
            && i < |t.agents|
            && (x.at.WantWrite? ==> t.agents[i] == x || t.agents[i] == x.(at := WriteHold(x.at.n)))
            && (x.at.WriteHold? ==> t.agents[i].at.WriteGot? && t.agents[i].last == x.last && t.agents[i].at.n == x.at.n)
            && (x.at.WriteGot? ==> t.copy == x.at.n && t.agents[i].at.WriteStored? && t.agents[i].last == x.last)
            && (x.at.WriteStored? ==> Keeps(t.agents[i], x.last) && !t.agents[i].at.Idle?)
  {
    assert Known(s.agents[i], |s.copies|);
    hide Proper;
  }

  lemma ClearTurn(s: Shared, i: nat, a: Start)
    requires Proper(s) && Ready(s, i, a)
    ensures var x, t := s.agents[i], Turn(s, i, a);
            && i < |t.agents|
            && (x.at.WantClear? ==> t.agents[i] == x || t.agents[i] == x.(at := ClearHold))
            && (x.at.ClearHold? ==>
                  (t.agents[i].at.ClearFree? || t.agents[i].at.ClearSpent? || t.agents[i].at.ClearNone?) && t.agents[i].last == x.last)
            && (x.at.ClearFree? ==> t.agents[i].at.ClearSpent? && t.agents[i].last == x.last)
            && (x.at.ClearSpent? || x.at.ClearNone? ==> t.copy == NULL && t.agents[i] == x.(at := ClearDone))
            && (x.at.ClearDone? ==> t.agents[i] == x.(at := Idle))
  {
    assert Known(s.agents[i], |s.copies|) && Pointer(s.copy, |s.copies|);
    hide Proper;
  }

  lemma UpdateNext(run: seq<Shared>, b: nat, j: nat, i: nat, n: int, last: int)
    requires b < j && j + 1 < |run| && Follows(run[j], run[j + 1]) && i < |run[j].agents| && !run[j].agents[i].at.Idle?
    requires UpdateStage(run, b, j, run[j].agents[i], n, last)
    ensures i < |run[j + 1].agents| && UpdateStage(run, b, j + 1, run[j + 1].agents[i], n, last)
  {
    hide Turn;
    var s, t := run[j], run[j + 1];
    var x := s.agents[i];
    var a, own := TurnOf(s, t, i);
    if own { UpdateTurn(s, i, a); }
    if x.at.WriteGot? && own { assert Was(run, b, j + 1, n); }
    if Was(run, b, j, n) { WasLater(run, b, j, j + 1, n); }
    if own && Keeps(x, last) { KeepsTurn(s, i, a, last); }
    hide Was;
  }

  lemma ClearNext(run: seq<Shared>, b: nat, j: nat, i: nat, last: int)
    requires b < j && j + 1 < |run| && Follows(run[j], run[j + 1]) && i < |run[j].agents| && !run[j].agents[i].at.Idle?
    requires ClearStage(run, b, j, run[j].agents[i], last)
    ensures i < |run[j + 1].agents| && ClearStage(run, b, j + 1, run[j + 1].agents[i], last)
  {
    hide Turn;
    var s, t := run[j], run[j + 1];
    var x := s.agents[i];
    var a, own := TurnOf(s, t, i);
    if own { ClearTurn(s, i, a); }
    if (x.at.ClearSpent? || x.at.ClearNone?) && own { assert Was(run, b, j + 1, NULL); }
    if Was(run, b, j, NULL) { WasLater(run, b, j, j + 1, NULL); }
    if own && Keeps(x, last) { KeepsTurn(s, i, a, last); }
    hide Was;
  }

  lemma {:induction false} UpdateStages(run: seq<Shared>, b: nat, e: nat, i: nat, j: nat, n: int)
    requires Does(run, b, e, i) && run[b + 1].agents[i].at == WantWrite(n) && b < j <= e
    ensures UpdateStage(run, b, j, run[j].agents[i], n, run[b + 1].agents[i].last)
    decreases j
  {
    hide UpdateStage;
    if j > b + 1 {
      UpdateStages(run, b, e, i, j - 1, n);
      assert Follows(run[j - 1], run[j]);
      UpdateNext(run, b, j - 1, i, n, run[b + 1].agents[i].last);
    } else {
      UpdateBegins(run, b, n, run[j].agents[i]);
    }
  }

  lemma UpdateBegins(run: seq<Shared>, b: nat, n: int, x: Agent)
    requires x.at == WantWrite(n)
    ensures UpdateStage(run, b, b + 1, x, n, x.last)
  {
  }

  lemma {:induction false} ClearStages(run: seq<Shared>, b: nat, e: nat, i: nat, j: nat)
    requires Does(run, b, e, i) && run[b + 1].agents[i].at.WantClear? && b < j <= e
    ensures ClearStage(run, b, j, run[j].agents[i], run[b + 1].agents[i].last)
    decreases j
  {
    hide ClearStage;
    if j > b + 1 {
      ClearStages(run, b, e, i, j - 1);
      assert Follows(run[j - 1], run[j]);
      ClearNext(run, b, j - 1, i, run[b + 1].agents[i].last);
    } else {
      ClearBegins(run, b, run[j].agents[i]);
    }
  }

  lemma ClearBegins(run: seq<Shared>, b: nat, x: Agent)
    requires x.at.WantClear?
    ensures ClearStage(run, b, b + 1, x, x.last)
  {
  }

  /** The first step from being idle. */
  lemma Begins(run: seq<Shared>, b: nat, e: nat, i: nat)
    requires Does(run, b, e, i)
    ensures var x, y := run[b].agents[i], run[b + 1].agents[i];
            || (y == x.(at := WantRead))
            || (y == x.(at := WantWrite(|run[b].copies|)) && run[b + 1].copies == run[b].copies + [Copy(1, false)])
            || (y == x.(at := WantClear))
            || (y == Agent(NULL, Drop(x.last, NULL)))
  {
    assert Follows(run[b], run[b + 1]);
    var a, own := TurnOf(run[b], run[b + 1], i);
    hide Proper;
  }

  /** What an agent has done between being idle twice: read the current copy; made a new copy the current one, or none,
      keeping what it had read last; or given that up. */
  lemma Done(run: seq<Shared>, b: nat, e: nat, i: nat)
    requires Does(run, b, e, i)
    ensures var last, now := run[b].agents[i].last, run[e].agents[i].last;
            match run[b + 1].agents[i].at
            case WantRead => exists m: nat :: b < m <= e && run[m].copy == now
            case WantWrite(n) => n == |run[b].copies| && now == last && exists m: nat :: b < m <= e && run[m].copy == n
            case WantClear => now == last && exists m: nat :: b < m <= e && run[m].copy == NULL
            case _ => now == NULL
  {
    Begins(run, b, e, i);
    var at := run[b + 1].agents[i].at;
    if at.WantRead? {
      ReadCurrent(run, b, e, i);
    } else if at.WantWrite? {
      UpdateStages(run, b, e, i, e, at.n);
    } else if at.WantClear? {
      ClearStages(run, b, e, i, e);
    } else {
      KeepsOn(run, b, e, i, b + 1, NULL);
    }
  }

  /** The current copy changes only to the new copy of an agent that updates, or to none. */
  lemma CopyChanges(s: Shared, i: nat, a: Start)
    requires Proper(s) && Ready(s, i, a) && Turn(s, i, a).copy != s.copy
    ensures Turn(s, i, a).copy == if s.agents[i].at.WriteGot? then s.agents[i].at.n else NULL
    ensures s.agents[i].at.WriteGot? || s.agents[i].at.ClearSpent? || s.agents[i].at.ClearNone?
  {
    assert Known(s.agents[i], |s.copies|);
    hide Proper;
  }

  // ---------------------------------------------------------------- nobody waits for nothing

  /** Agent `i` alone takes its turns. */
  ghost predicate Alone(run: seq<Shared>, i: nat) {
    run != [] && forall j :: 0 < j < |run| ==> OwnTurn(run[j - 1], run[j], i)
  }

  ghost predicate OwnTurn(s: Shared, t: Shared, i: nat) {
    exists a :: Ready(s, i, a) && Proper(s) && t == Turn(s, i, a)
  }

  lemma TakeTurn(s: Shared, i: nat, a: Start) returns (t: Shared)
    requires Proper(s) && Ready(s, i, a)
    ensures t == Turn(s, i, a) && Proper(t) && OwnTurn(s, t, i)
    ensures Known(s.agents[i], |s.copies|) && Pointer(s.copy, |s.copies|) && i < |t.agents|
  {
    t := Turn(s, i, a);
    TurnProper(s, i, a);
  }

  /** An agent that gives up a copy and keeps another is idle after one turn more, or two. */
  lemma DropAlone(s: Shared, i: nat) returns (run: seq<Shared>)
    requires Proper(s) && i < |s.agents| && s.agents[i].at.Drop?
    ensures Alone(run, i) && run[0] == s
    ensures var t := run[|run| - 1];
            && i < |t.agents| && t.agents[i] == Agent(s.agents[i].at.keep, Idle) && t.copy == s.copy && t.lock == s.lock
  {
    hide Proper, Alone;
    var t := TakeTurn(s, i, Proceed);
    run := [s, t];
    if t.agents[i].at.Free? {
      var u := TakeTurn(t, i, Proceed);
      run := [s, t, u];
    }
    AloneShort(run, i);
  }

  lemma AloneShort(run: seq<Shared>, i: nat)
    requires 1 < |run| <= 3 && OwnTurn(run[0], run[1], i) && (|run| == 3 ==> OwnTurn(run[1], run[2], i))
    ensures Alone(run, i)
  {
  }

  lemma AloneAfter(s: Shared, run: seq<Shared>, i: nat) returns (more: seq<Shared>)
    requires Alone(run, i) && OwnTurn(s, run[0], i)
    ensures Alone(more, i) && |more| > 1 && more[0] == s && more[1] == run[0] && more[|more| - 1] == run[|run| - 1]
  {
    more := [s] + run;
    forall j | 0 < j < |more| ensures OwnTurn(more[j - 1], more[j], i) {
      if j > 1 { assert more[j] == run[j - 1] && more[j - 1] == run[j - 2]; }
    }
  }

  /** A read by an agent that is left alone ends, with the current copy, if no writer holds the lock. */
  lemma ReadAlone(s: Shared, i: nat) returns (run: seq<Shared>)
    requires Proper(s) && i < |s.agents| && s.agents[i].at.Idle? && s.lock.writers == 0
    ensures Alone(run, i) && |run| > 1 && run[0] == s && run[1] == Turn(s, i, Read)
    ensures var t := run[|run| - 1]; i < |t.agents| && t.agents[i] == Agent(s.copy, Idle) && t.copy == s.copy && t.lock == s.lock
  {
    hide Proper, Alone;
    var s1 := TakeTurn(s, i, Read);
    var s2 := TakeTurn(s1, i, Proceed);
    var s3 := TakeTurn(s2, i, Proceed);
    var s4 := TakeTurn(s3, i, Proceed);
    var s5 := TakeTurn(s4, i, Proceed);
    var s6 := TakeTurn(s5, i, Proceed);
    run := DropAlone(s6, i);
    run := AloneAfter(s5, run, i);
    run := AloneAfter(s4, run, i);
    run := AloneAfter(s3, run, i);
    run := AloneAfter(s2, run, i);
    run := AloneAfter(s1, run, i);
    run := AloneAfter(s, run, i);
  }

  /** An update ends with the new copy as the current one, if nobody holds the lock. */
  lemma UpdateAlone(s: Shared, i: nat) returns (run: seq<Shared>)
    requires Proper(s) && i < |s.agents| && s.agents[i].at.Idle? && s.lock == Holders(0, 0)
    ensures Alone(run, i) && |run| > 1 && run[0] == s && run[1] == Turn(s, i, Update)
    ensures var t := run[|run| - 1]; i < |t.agents| && t.agents[i] == s.agents[i] && t.copy == |s.copies| && t.lock == s.lock
  {
    hide Proper, Alone;
    var s1 := TakeTurn(s, i, Update);
    var s2 := TakeTurn(s1, i, Proceed);
    var s3 := TakeTurn(s2, i, Proceed);
    var s4 := TakeTurn(s3, i, Proceed);
    var s5 := TakeTurn(s4, i, Proceed);
    run := DropAlone(s5, i);
    run := AloneAfter(s4, run, i);
    run := AloneAfter(s3, run, i);
    run := AloneAfter(s2, run, i);
    run := AloneAfter(s1, run, i);
    run := AloneAfter(s, run, i);
  }

  /** Taking the copy away ends with none. */
  lemma ClearAlone(s: Shared, i: nat) returns (run: seq<Shared>)
    requires Proper(s) && i < |s.agents| && s.agents[i].at.Idle? && s.lock == Holders(0, 0)
    ensures Alone(run, i) && |run| > 1 && run[0] == s && run[1] == Turn(s, i, Clear)
    ensures var t := run[|run| - 1]; i < |t.agents| && t.agents[i] == s.agents[i] && t.copy == NULL && t.lock == s.lock
  {
    hide Proper, Alone;
    var s1 := TakeTurn(s, i, Clear);
    var s2 := TakeTurn(s1, i, Proceed);
    var s3 := TakeTurn(s2, i, Proceed);
    if s3.agents[i].at.ClearFree? {
      var s4 := TakeTurn(s3, i, Proceed);
      run := ClearEnds(s4, i);
      run := AloneAfter(s3, run, i);
    } else {
      run := ClearEnds(s3, i);
    }
    run := AloneAfter(s2, run, i);
    run := AloneAfter(s1, run, i);
    run := AloneAfter(s, run, i);
  }

  /** Giving up the copy read last leaves none. */
  lemma DeleteAlone(s: Shared, i: nat) returns (run: seq<Shared>)
    requires Proper(s) && i < |s.agents| && s.agents[i].at.Idle?
    ensures Alone(run, i) && |run| > 1 && run[0] == s && run[1] == Turn(s, i, Delete)
    ensures var t := run[|run| - 1]; i < |t.agents| && t.agents[i] == Agent(NULL, Idle) && t.copy == s.copy && t.lock == s.lock
  {
    hide Proper, Alone;
    var s1 := TakeTurn(s, i, Delete);
    run := DropAlone(s1, i);
    run := AloneAfter(s, run, i);
  }

  lemma ClearEnds(s: Shared, i: nat) returns (run: seq<Shared>)
    requires Proper(s) && i < |s.agents| && (s.agents[i].at.ClearSpent? || s.agents[i].at.ClearNone?)
    ensures Alone(run, i) && run[0] == s
    ensures var t := run[|run| - 1];
            i < |t.agents| && t.agents[i] == s.agents[i].(at := Idle) && t.copy == NULL && t.lock == s.lock.(writers := 0)
  {
    hide Proper, Alone;
    var t := TakeTurn(s, i, Proceed);
    var u := TakeTurn(t, i, Proceed);
    run := [s, t, u];
    AloneShort(run, i);
  }
}
