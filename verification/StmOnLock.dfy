/** The copy protocol over the lock as it is: where an agent takes or leaves the lock, the instructions of
    the lock are steps of their own, in any interleaving with everything else. */
module StmOnLock {
  import R = RwLock
  import S = Stm
  import T = StmRuns

  /** Thread `i` of the lock is agent `i`. */
  datatype World = World(lock: R.Lock, shared: S.Shared)

  /** Where a thread is while its agent is at a place. */
  predicate Meets(pc: R.Pc, at: S.Place) {
    match at
    case WantRead => pc.Out? || pc.RSpin? || pc.RInc? || pc.RCheck? || pc.RBack?
    case ReadHold => pc.RIn?
    case ReadGot(_) => pc.RIn?
    case ReadHave(_) => pc.RIn?
    case WantWrite(_) => pc.Out? || pc.WSpin? || pc.WWait?
    case WantClear => pc.Out? || pc.WSpin? || pc.WWait?
    case WriteHold(_) => pc.WIn?
    case WriteGot(_, _) => pc.WIn?
    case WriteStored(_) => pc.WIn?
    case ClearHold => pc.WIn?
    case ClearFree(_) => pc.WIn?
    case ClearSpent(_) => pc.WIn?
    case ClearNone => pc.WIn?
    case ClearDone => pc.WIn?
    case _ => pc.Out?
  }

  /** The lock is held as the protocol takes it to be. */
  ghost predicate Joint(w: World) {
    && R.Inv(w.lock) && S.Consistent(w.shared)
    && |w.lock.threads| == |w.shared.agents| && w.shared.lock == R.Inside(w.lock)
    && forall i :: 0 <= i < |w.lock.threads| ==> Meets(w.lock.threads[i], w.shared.agents[i].at)
  }

  predicate Wants(at: S.Place) { at.WantRead? || at.WantWrite? || at.WantClear? }

  predicate Leaves(at: S.Place) { at.ReadHave? || at.WriteStored? || at.ClearDone? }

  /** The next instruction of a thread whose agent wants the lock. */
  function Instruction(pc: R.Pc, at: S.Place): R.Action {
    if !pc.Out? then R.Go else if at.WantRead? then R.LockRead else R.LockWrite
  }

  /** One step of agent `i`: an instruction of the lock, with which it may come in, leave it, or none. */
  ghost function Step(w: World, i: nat, a: S.Start): World
    requires Joint(w) && S.Ready(w.shared, i, a)
  {
    var at, pc := w.shared.agents[i].at, w.lock.threads[i];
    assert Meets(pc, at);
    if Wants(at) then
      var l := R.Step(w.lock, i, Instruction(pc, at));
      World(l, if l.threads[i].RIn? || l.threads[i].WIn? then S.Turn(w.shared, i, a) else w.shared)
    else if Leaves(at) then World(R.Step(w.lock, i, R.Go), S.Turn(w.shared, i, a))
    else w.(shared := S.Turn(w.shared, i, a))
  }

  /** What an instruction does to the threads inside. */
  lemma StepInside(l: R.Lock, i: nat, a: R.Action)
    requires R.Inv(l) && R.Enabled(l, i, a)
    ensures var t, x, h, j := R.Step(l, i, a), l.threads[i], R.Inside(l), R.Inside(R.Step(l, i, a));
            && t.threads == l.threads[i := t.threads[i]]
            && (t.threads[i].RIn? ==> x.RCheck? && h.writers == 0 && j == h.(readers := h.readers + 1))
            && (t.threads[i].WIn? ==> x.WWait? && h.writers == 0 && h.readers == 0 && j == h.(writers := 1))
            && (x.RIn? ==> t.threads[i].Out? && h.readers > 0 && j == h.(readers := h.readers - 1))
            && (x.WIn? ==> t.threads[i].Out? && h.writers == 1 && j == h.(writers := 0))
            && (!x.RIn? && !x.WIn? && !t.threads[i].RIn? && !t.threads[i].WIn? ==> j == h)
  {
    hide R.Total;
    R.Became(l, i, R.Step(l, i, a).threads[i]);
  }

  /** What a turn does to the lock as the protocol sees it. */
  lemma TurnLock(s: S.Shared, i: nat, a: S.Start)
    requires S.Proper(s) && S.Ready(s, i, a)
    ensures var at, t := s.agents[i].at, S.Turn(s, i, a);
            && |t.agents| == |s.agents| && t.agents == s.agents[i := t.agents[i]]
            && (at.WantRead? && s.lock.writers == 0 ==>
                  t.lock == s.lock.(readers := s.lock.readers + 1) && t.agents[i].at.ReadHold?)
            && (at.WantWrite? && s.lock.writers == 0 && s.lock.readers == 0 ==>
                  t.lock == s.lock.(writers := 1) && t.agents[i].at.WriteHold?)
            && (at.WantClear? && s.lock.writers == 0 && s.lock.readers == 0 ==>
                  t.lock == s.lock.(writers := 1) && t.agents[i].at.ClearHold?)
            && (at.ReadHave? && s.lock.readers > 0 ==>
                  t.lock == s.lock.(readers := s.lock.readers - 1) && t.agents[i].at.ReadDone?)
            && (at.WriteStored? || at.ClearDone? ==>
                  t.lock == s.lock.(writers := 0) && (t.agents[i].at.Drop? || t.agents[i].at.Idle?))
  {
    S.TurnAgents(s, i, a);
    assert S.Known(s.agents[i], |s.copies|) && S.Pointer(s.copy, |s.copies|);
    hide S.Proper;
  }

  /** Elsewhere a turn leaves the lock alone, and the agent stays inside or outside. */
  lemma TurnStays(s: S.Shared, i: nat, a: S.Start, pc: R.Pc)
    requires S.Proper(s) && S.Ready(s, i, a) && Meets(pc, s.agents[i].at)
    requires !Wants(s.agents[i].at) && !Leaves(s.agents[i].at)
    ensures var t := S.Turn(s, i, a);
            t.lock == s.lock && t.agents == s.agents[i := t.agents[i]] && Meets(pc, t.agents[i].at)
  {
    S.TurnAgents(s, i, a);
    assert S.Known(s.agents[i], |s.copies|) && S.Pointer(s.copy, |s.copies|);
    hide S.Proper;
  }

  lemma StepJoint(w: World, i: nat, a: S.Start)
    requires Joint(w) && S.Ready(w.shared, i, a)
    ensures Joint(Step(w, i, a))
  {
    if Wants(w.shared.agents[i].at) { WantsJoint(w, i, a); }
    else if Leaves(w.shared.agents[i].at) { LeavesJoint(w, i, a); }
    else { StaysJoint(w, i, a); }
  }

  /** All others are where they were. */
  lemma OthersMeet(w: World, v: World, i: nat)
    requires Joint(w) && i < |w.lock.threads| && R.Inv(v.lock) && S.Consistent(v.shared) && v.shared.lock == R.Inside(v.lock)
    requires |v.lock.threads| == |w.lock.threads| && |v.shared.agents| == |w.shared.agents|
    requires v.lock.threads == w.lock.threads[i := v.lock.threads[i]]
    requires v.shared.agents == w.shared.agents[i := v.shared.agents[i]]
    requires Meets(v.lock.threads[i], v.shared.agents[i].at)
    ensures Joint(v)
  {
    hide S.Consistent, R.Inv, R.Inside;
    forall j | 0 <= j < |v.lock.threads| ensures Meets(v.lock.threads[j], v.shared.agents[j].at) {
      if j != i { assert Meets(w.lock.threads[j], w.shared.agents[j].at); }
    }
  }

  lemma WantsJoint(w: World, i: nat, a: S.Start)
    requires Joint(w) && S.Ready(w.shared, i, a) && Wants(w.shared.agents[i].at)
    ensures Joint(Step(w, i, a))
  {
    var at, pc, v := w.shared.agents[i].at, w.lock.threads[i], Step(w, i, a);
    assert Meets(pc, at);
    S.TurnConsistent(w.shared, i, a);
    R.StepInv(w.lock, i, Instruction(pc, at));
    StepInside(w.lock, i, Instruction(pc, at));
    TurnLock(w.shared, i, a);
    hide S.Turn, S.Consistent, S.Ready, R.Inv, R.Inside, Joint;
    OthersMeet(w, v, i);
  }

  lemma LeavesJoint(w: World, i: nat, a: S.Start)
    requires Joint(w) && S.Ready(w.shared, i, a) && Leaves(w.shared.agents[i].at)
    ensures Joint(Step(w, i, a))
  {
    var at, pc, v := w.shared.agents[i].at, w.lock.threads[i], Step(w, i, a);
    assert Meets(pc, at);
    S.TurnConsistent(w.shared, i, a);
    R.StepInv(w.lock, i, R.Go);
    StepInside(w.lock, i, R.Go);
    TurnLock(w.shared, i, a);
    hide S.Turn, S.Consistent, S.Ready, R.Inv, R.Inside, R.Step, Joint;
    OthersMeet(w, v, i);
  }

  lemma StaysJoint(w: World, i: nat, a: S.Start)
    requires Joint(w) && S.Ready(w.shared, i, a) && !Wants(w.shared.agents[i].at) && !Leaves(w.shared.agents[i].at)
    ensures Joint(Step(w, i, a))
  {
    var v := Step(w, i, a);
    S.TurnConsistent(w.shared, i, a);
    TurnStays(w.shared, i, a, w.lock.threads[i]);
    hide S.Turn, S.Consistent, S.Ready, R.Inv, R.Inside, R.Step, Joint;
    OthersMeet(w, v, i);
  }

  /** `n` agents outside, and an object with its first copy. */
  function Start(n: nat): World { World(R.Initial(n), S.Fresh(n)) }

  ghost predicate Next(w: World, v: World) {
    exists i: nat, a :: Joint(w) && S.Ready(w.shared, i, a) && v == Step(w, i, a)
  }

  ghost predicate Behaviour(run: seq<World>) {
    && run != [] && (exists n: nat :: run[0] == Start(n))
    && forall j :: 0 < j < |run| ==> Next(run[j - 1], run[j])
  }

  lemma StartLock(n: nat)
    ensures R.Inv(R.Initial(n)) && R.Inside(R.Initial(n)) == R.Holders(0, 0)
  {
    var run := [R.Initial(n)];
    assert run[0] == R.Initial(n) && R.Behaviour(run);
    R.Exclusion(run, 0);
    R.NobodyInside(n, R.Reading);
    R.NobodyInside(n, R.Writing);
  }

  lemma StartShared(n: nat)
    ensures S.Consistent(S.Fresh(n))
  {
    hide S.Consistent, S.Fresh;
    var run := [S.Fresh(n)];
    assert run[0] == S.Fresh(n) && S.Execution(run);
    S.ExecutionConsistent(run, 0);
  }

  lemma StartJoint(n: nat)
    ensures Joint(Start(n))
  {
    hide S.Consistent, R.Inv, R.Inside;
    StartLock(n);
    StartShared(n);
  }

  lemma {:induction false} RunJoint(run: seq<World>, j: nat)
    requires Behaviour(run) && j < |run|
    ensures Joint(run[j])
  {
    hide Joint, Step, S.Ready;
    if j == 0 {
      var n: nat :| run[0] == Start(n);
      StartJoint(n);
    } else {
      RunJoint(run, j - 1);
      assert Next(run[j - 1], run[j]);
      var i: nat, a :| S.Ready(run[j - 1].shared, i, a) && run[j] == Step(run[j - 1], i, a);
      StepJoint(run[j - 1], i, a);
    }
  }

  lemma JointProtects(w: World)
    requires Joint(w)
    ensures var h := R.Inside(w.lock); h.writers <= 1 && (h.writers == 1 ==> h.readers == 0)
    ensures var s := w.shared;
            && (forall c: nat :: c < |s.copies| ==> S.Alive(s, c))
            && forall i, c: nat :: 0 <= i < |s.agents| && c < |s.copies| && s.agents[i].at == S.ReadGot(c) ==>
                 s.copies[c].ref > 0 && !s.copies[c].freed && s.copy == c
  {
    var s := w.shared;
    forall c: nat | c < |s.copies| ensures S.Alive(s, c) { S.ConsistentAlive(s, c); }
    forall i, c: nat | 0 <= i < |s.agents| && c < |s.copies| && s.agents[i].at == S.ReadGot(c)
      ensures s.copies[c].ref > 0 && !s.copies[c].freed && s.copy == c {
      S.TurnSafe(s, i, c);
      assert S.CopyOk(s, c);
    }
  }

  /** Whatever the interleaving of the lock's instructions with reading, updating, clearing and freeing: a
      writer is inside alone, a copy somebody refers to has not been freed, and a reader inside that has
      loaded the pointer finds a copy with a reference behind it. */
  lemma Protected(run: seq<World>, j: nat)
    requires Behaviour(run) && j < |run|
    ensures var h := R.Inside(run[j].lock); h.writers <= 1 && (h.writers == 1 ==> h.readers == 0)
    ensures var s := run[j].shared;
            && (forall c: nat :: c < |s.copies| ==> S.Alive(s, c))
            && forall i, c: nat :: 0 <= i < |s.agents| && c < |s.copies| && s.agents[i].at == S.ReadGot(c) ==>
                 s.copies[c].ref > 0 && !s.copies[c].freed && s.copy == c
  {
    hide Joint, Behaviour, R.Inside, S.Alive;
    RunJoint(run, j);
    JointProtects(run[j]);
  }

  /** What the agents see of a run is a run of the protocol. */
  function Seen(run: seq<World>): seq<S.Shared> { seq(|run|, j requires 0 <= j < |run| => run[j].shared) }

  lemma SeenRun(run: seq<World>)
    requires Behaviour(run)
    ensures S.Execution(Seen(run))
  {
    hide Joint, S.Turn, S.Fresh, Step;
    var seen := Seen(run);
    var n: nat :| run[0] == Start(n);
    assert seen[0] == S.Fresh(n);
    forall j | 0 < j < |run| ensures S.Follows(seen[j - 1], seen[j]) {
      assert Next(run[j - 1], run[j]);
      var i: nat, a :| Joint(run[j - 1]) && S.Ready(run[j - 1].shared, i, a) && run[j] == Step(run[j - 1], i, a);
      StepSeen(run[j - 1], i, a);
    }
  }

  lemma StepSeen(w: World, i: nat, a: S.Start)
    requires Joint(w) && S.Ready(w.shared, i, a)
    ensures S.Follows(w.shared, Step(w, i, a).shared)
  {
    assert S.Proper(w.shared);
    hide S.Turn, S.Proper, S.Consistent, R.Inv, R.Step;
  }

  /** From state `b` to state `e` agent `i` does one thing. */
  ghost predicate Between(run: seq<World>, b: nat, e: nat, i: nat) {
    && b + 1 < e < |run| && (forall j :: b <= j <= e ==> i < |run[j].shared.agents|)
    && run[b].shared.agents[i].at.Idle? && run[e].shared.agents[i].at.Idle?
    && forall j :: b < j < e ==> !run[j].shared.agents[i].at.Idle?
  }

  /** So a reader ends up with a copy that was the current one since it began, and an update is seen. */
  lemma DoneOnLock(run: seq<World>, b: nat, e: nat, i: nat)
    requires Behaviour(run) && Between(run, b, e, i)
    ensures var last, now := run[b].shared.agents[i].last, run[e].shared.agents[i].last;
            match run[b + 1].shared.agents[i].at
            case WantRead => exists m: nat :: b < m <= e && run[m].shared.copy == now
            case WantWrite(n) => now == last && exists m: nat :: b < m <= e && run[m].shared.copy == n
            case WantClear => now == last && exists m: nat :: b < m <= e && run[m].shared.copy == S.NULL
            case _ => now == S.NULL
  {
    hide S.Execution, Behaviour;
    var seen := Seen(run);
    SeenRun(run);
    assert forall j :: 0 <= j < |run| ==> seen[j] == run[j].shared;
    T.Done(seen, b, e, i);
  }

  // ---------------------------------------------------------------- one agent alone

  ghost predicate OwnStep(w: World, v: World, i: nat) {
    exists a :: Joint(w) && S.Ready(w.shared, i, a) && v == Step(w, i, a)
  }

  ghost predicate Alone(run: seq<World>, i: nat) {
    run != [] && forall j :: 0 < j < |run| ==> OwnStep(run[j - 1], run[j], i)
  }

  lemma TakeStep(w: World, i: nat, a: S.Start) returns (v: World)
    requires Joint(w) && S.Ready(w.shared, i, a)
    ensures v == Step(w, i, a) && Joint(v) && OwnStep(w, v, i) && |v.shared.agents| == |w.shared.agents|
    ensures i < |w.lock.threads| == |v.lock.threads| && Meets(w.lock.threads[i], w.shared.agents[i].at)
    ensures S.Proper(w.shared) && S.Known(w.shared.agents[i], |w.shared.copies|) && S.Pointer(w.shared.copy, |w.shared.copies|)
    ensures R.Counts(w.lock) && w.shared.lock == R.Inside(w.lock) && w.shared.lock.writers <= 1
    ensures !w.lock.write ==> w.shared.lock.writers == 0
  {
    v := Step(w, i, a);
    StepJoint(w, i, a);
    S.TurnAgents(w.shared, i, a);
  }

  lemma AloneOne(w: World, i: nat) returns (run: seq<World>)
    ensures Alone(run, i) && run[0] == w == run[|run| - 1]
  {
    run := [w];
  }

  lemma AloneAfter(w: World, run: seq<World>, i: nat) returns (more: seq<World>)
    requires Alone(run, i) && OwnStep(w, run[0], i)
    ensures Alone(more, i) && |more| > 1 && more[0] == w && more[1] == run[0] && more[|more| - 1] == run[|run| - 1]
  {
    more := [w] + run;
    forall j | 0 < j < |more| ensures OwnStep(more[j - 1], more[j], i) {
      if j > 1 { assert more[j] == run[j - 1] && more[j - 1] == run[j - 2]; }
    }
  }

  /** A reader that is left alone gets the lock, if its write flag is not set. */
  lemma EnterAlone(w: World, i: nat) returns (run: seq<World>)
    requires Joint(w) && i < |w.shared.agents| && w.shared.agents[i].at.WantRead? && w.lock.threads[i].Out? && !w.lock.write
    ensures Alone(run, i) && run[0] == w
    ensures var v := run[|run| - 1];
            && Joint(v) && |v.shared.agents| == |w.shared.agents| && !v.lock.write && v.shared.copy == w.shared.copy
            && v.shared.agents[i] == w.shared.agents[i].(at := S.ReadHold)
  {
    hide Joint, Alone, S.Proper, R.Counts, R.Inside;
    var w1 := TakeStep(w, i, S.Proceed);
    var w2 := TakeStep(w1, i, S.Proceed);
    var w3 := TakeStep(w2, i, S.Proceed);
    var w4 := TakeStep(w3, i, S.Proceed);
    run := AloneOne(w4, i);
    run := AloneAfter(w3, run, i);
    run := AloneAfter(w2, run, i);
    run := AloneAfter(w1, run, i);
    run := AloneAfter(w, run, i);
  }

  lemma AloneBoth(first: seq<World>, second: seq<World>, i: nat) returns (run: seq<World>)
    requires Alone(first, i) && Alone(second, i) && first[|first| - 1] == second[0]
    ensures Alone(run, i) && run[0] == first[0] && run[|run| - 1] == second[|second| - 1]
  {
    run := first + second[1..];
    forall j | 0 < j < |run| ensures OwnStep(run[j - 1], run[j], i) {
      if j >= |first| {
        assert run[j] == second[j - |first| + 1] && run[j - 1] == second[j - |first|];
      } else {
        assert run[j] == first[j] && run[j - 1] == first[j - 1];
      }
    }
  }

  /** Inside, it loads the pointer, takes its reference and leaves, with the current copy in the end. */
  lemma ReadInside(w: World, i: nat) returns (run: seq<World>)
    requires Joint(w) && i < |w.shared.agents| && w.shared.agents[i].at.ReadHold?
    ensures Alone(run, i) && run[0] == w
    ensures var v := run[|run| - 1];
            i < |v.shared.agents| && v.shared.agents[i] == S.Agent(w.shared.copy, S.Idle) && v.shared.copy == w.shared.copy
  {
    hide Joint, Alone, S.Proper, R.Counts, R.Inside;
    var w1 := TakeStep(w, i, S.Proceed);
    var w2 := TakeStep(w1, i, S.Proceed);
    var w3 := TakeStep(w2, i, S.Proceed);
    var w4 := TakeStep(w3, i, S.Proceed);
    run := DropAlone(w4, i);
    run := AloneAfter(w3, run, i);
    run := AloneAfter(w2, run, i);
    run := AloneAfter(w1, run, i);
    run := AloneAfter(w, run, i);
  }

  lemma DropAlone(w: World, i: nat) returns (run: seq<World>)
    requires Joint(w) && i < |w.shared.agents| && w.shared.agents[i].at.Drop?
    ensures Alone(run, i) && run[0] == w
    ensures var v := run[|run| - 1];
            && i < |v.shared.agents| && v.shared.agents[i] == S.Agent(w.shared.agents[i].at.keep, S.Idle)
            && v.shared.copy == w.shared.copy
  {
    hide Joint, Alone, S.Proper, R.Counts, R.Inside;
    var w1 := TakeStep(w, i, S.Proceed);
    if w1.shared.agents[i].at.Free? {
      var w2 := TakeStep(w1, i, S.Proceed);
      run := AloneOne(w2, i);
      run := AloneAfter(w1, run, i);
    } else {
      run := AloneOne(w1, i);
    }
    run := AloneAfter(w, run, i);
  }

  /** A read that is left alone ends, instructions of the lock included, with the current copy. */
  lemma ReadAlone(w: World, i: nat) returns (run: seq<World>)
    requires Joint(w) && i < |w.shared.agents| && w.shared.agents[i].at.Idle? && !w.lock.write
    ensures Alone(run, i) && |run| > 1 && run[0] == w && run[1] == Step(w, i, S.Read)
    ensures var v := run[|run| - 1];
            i < |v.shared.agents| && v.shared.agents[i] == S.Agent(w.shared.copy, S.Idle) && v.shared.copy == w.shared.copy
  {
    hide Joint, S.Proper, R.Counts, R.Inside;
    var w1 := TakeStep(w, i, S.Read);
    var enter := EnterAlone(w1, i);
    var inside := ReadInside(enter[|enter| - 1], i);
    run := AloneBoth(enter, inside, i);
    run := AloneAfter(w, run, i);
  }

  /** So does an update, when nobody is counted as a reader either. */
  lemma UpdateAlone(w: World, i: nat) returns (run: seq<World>)
    requires Joint(w) && i < |w.shared.agents| && w.shared.agents[i].at.Idle? && !w.lock.write && w.lock.read == 0
    ensures Alone(run, i) && |run| > 1 && run[0] == w && run[1] == Step(w, i, S.Update)
    ensures var v := run[|run| - 1];
            i < |v.shared.agents| && v.shared.agents[i] == w.shared.agents[i] && v.shared.copy == |w.shared.copies|
  {
    hide Joint, Alone, S.Proper, R.Counts, R.Inside;
    var w1 := TakeStep(w, i, S.Update);
    var w2 := TakeStep(w1, i, S.Proceed);
    var w3 := TakeStep(w2, i, S.Proceed);
    NobodyIn(w3);
    var w4 := TakeStep(w3, i, S.Proceed);
    var w5 := TakeStep(w4, i, S.Proceed);
    var w6 := TakeStep(w5, i, S.Proceed);
    var w7 := TakeStep(w6, i, S.Proceed);
    run := DropAlone(w7, i);
    run := AloneAfter(w6, run, i);
    run := AloneAfter(w5, run, i);
    run := AloneAfter(w4, run, i);
    run := AloneAfter(w3, run, i);
    run := AloneAfter(w2, run, i);
    run := AloneAfter(w1, run, i);
    run := AloneAfter(w, run, i);
  }

  /** With no reader counted none is inside; and who waits for the readers to go has the write flag to itself. */
  lemma NobodyIn(w: World)
    requires Joint(w) && w.lock.read == 0 && exists j :: 0 <= j < |w.lock.threads| && w.lock.threads[j].WWait?
    ensures w.shared.lock == R.Holders(0, 0)
  {
    var j :| 0 <= j < |w.lock.threads| && w.lock.threads[j].WWait?;
    R.TotalUpdate(w.lock.threads, j, R.Out, R.Waiting);
    hide S.Consistent;
  }
}
