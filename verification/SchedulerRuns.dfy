/** What scheduling comes to: queues are served in the order they were put into the global list, and a launch, a send, a kill
    and a worker's turn do what they are for when they are let to finish. */
module SchedulerRuns {
  import opened Scheduler

  // ---------------------------------------------------------------- the order of the global list

  /** In this step an agent takes a queue out of the list. */
  predicate Takes(s: State, t: State) { |t.global| < |s.global| }

  /** Agent `x` is a worker with queue `c` in its hands. */
  predicate Hands(x: Agent, c: nat) { x == Holding(c) || (x.Swapping? && x.nq == c) }

  /** A worker that asks for a queue gets the first of the list, if there is one; every other step leaves the list as it is
      or puts a queue behind all others. */
  lemma ListStep(s: State, i: nat, a: Action)
    requires Proper(s) && Enabled(s, i, a)
    ensures var x, t := s.agents[i], Step(s, i, a);
            if (x.Finished? || (x.Idle? && a.Take?)) && s.global != []
            then t.global == s.global[1..] && i < |t.agents| && Hands(t.agents[i], s.global[0])
            else t.global == s.global || (|t.global| > 0 && t.global == s.global + [t.global[|t.global| - 1]])
  {
    assert !s.agents[i].Idle? ==> Names(s.agents[i], s.agents[i].q);
    hide Proper;
  }

  /** How many queues are taken between states `a` and `b`. */
  function Taken(run: seq<State>, a: nat, b: nat): nat
    requires a <= b < |run|
  {
    if a == b then 0 else Taken(run, a, b - 1) + if Takes(run[b - 1], run[b]) then 1 else 0
  }

  lemma NextList(s: State, t: State)
    requires Next(s, t)
    ensures if Takes(s, t) then s.global != [] && t.global == s.global[1..] && exists i :: 0 <= i < |t.agents| && Hands(t.agents[i], s.global[0])
            else s.global <= t.global
  {
    var i: nat, a :| Enabled(s, i, a) && Proper(s) && t == Step(s, i, a);
    hide Step;
    ListStep(s, i, a);
  }

  /** A queue at position `j` moves on with each that is taken. */
  lemma {:induction false} MovesUp(run: seq<State>, a: nat, b: nat, j: nat)
    requires Behaviour(run) && a <= b < |run| && j < |run[a].global| && Taken(run, a, b) <= j
    ensures var k := j - Taken(run, a, b); k < |run[b].global| && run[b].global[k] == run[a].global[j]
    decreases b - a
  {
    hide Next, Initial, Hands;
    if a < b {
      MovesUp(run, a, b - 1, j);
      assert Next(run[b - 1], run[b]);
      NextList(run[b - 1], run[b]);
    }
  }

  /** So after `j` others have been taken it is the one that is: a worker has it in its hands. */
  lemma InTurn(run: seq<State>, a: nat, b: nat, j: nat)
    requires Behaviour(run) && a < b < |run| && j < |run[a].global|
    requires Taken(run, a, b) == j + 1 && Takes(run[b - 1], run[b])
    ensures exists i :: 0 <= i < |run[b].agents| && Hands(run[b].agents[i], run[a].global[j])
  {
    hide Next, Initial, Hands;
    MovesUp(run, a, b - 1, j);
    assert Next(run[b - 1], run[b]);
    NextList(run[b - 1], run[b]);
  }

  // ---------------------------------------------------------------- one agent alone

  ghost predicate OwnStep(s: State, t: State, i: nat) {
    exists a :: Enabled(s, i, a) && Proper(s) && t == Step(s, i, a)
  }

  /** Agent `i` alone takes the steps. */
  ghost predicate Alone(run: seq<State>, i: nat) {
    run != [] && forall j :: 0 < j < |run| ==> OwnStep(run[j - 1], run[j], i)
  }

  lemma TakeStep(s: State, i: nat, a: Action) returns (t: State)
    requires Inv(s) && Enabled(s, i, a)
    ensures t == Step(s, i, a) && Inv(t) && OwnStep(s, t, i) && i < |t.agents|
    ensures forall c: nat :: Names(s.agents[i], c) ==> c < |s.services| && Ok(s, c) && Made(s, c)
  {
    t := Step(s, i, a);
    StepInv(s, i, a);
    assert forall c: nat :: Names(s.agents[i], c) ==> c < |s.services|;
    hide Step, Ok, Made, Names;
    SameAgents(s, i, a);
  }

  lemma SameAgents(s: State, i: nat, a: Action)
    requires Proper(s) && Enabled(s, i, a)
    ensures |Step(s, i, a).agents| == |s.agents|
  {
    assert !s.agents[i].Idle? ==> Names(s.agents[i], s.agents[i].q);
    hide Proper;
  }

  lemma AloneOne(s: State, i: nat) returns (run: seq<State>)
    ensures Alone(run, i) && run[0] == s == run[|run| - 1]
  {
    run := [s];
  }

  lemma AloneAfter(s: State, run: seq<State>, i: nat) returns (more: seq<State>)
    requires Alone(run, i) && OwnStep(s, run[0], i)
    ensures Alone(more, i) && |more| > 1 && more[0] == s && more[1] == run[0] && more[|more| - 1] == run[|run| - 1]
  {
    more := [s] + run;
    forall j | 0 < j < |more| ensures OwnStep(more[j - 1], more[j], i) {
      if j > 1 { assert more[j] == run[j - 1] && more[j - 1] == run[j - 2]; }
    }
  }

  /** A worker that finds a queue with messages, of a service that is not gone, dispatches the first of them. */
  lemma ServeFirst(s: State, i: nat) returns (run: seq<State>)
    requires Inv(s) && i < |s.agents| && s.agents[i].Idle? && s.global != [] && s.global[0] < |s.services|
    requires var v := s.services[s.global[0]]; v.registered && v.msgs != []
    ensures Alone(run, i) && |run| > 1 && run[0] == s && run[1] == Step(s, i, Take)
    ensures var q, t := s.global[0], run[|run| - 1];
            && q < |t.services| && t.services[q].msgs == s.services[q].msgs[1..]
            && t.services[q].out == s.services[q].out + [Dispatched(s.services[q].msgs[0])]
  {
    hide Inv, Alone, Ok, Made;
    var s1 := TakeStep(s, i, Take);
    var s2 := TakeStep(s1, i, Go);
    var s3 := TakeStep(s2, i, More);
    run := AloneOne(s3, i);
    run := AloneAfter(s2, run, i);
    run := AloneAfter(s1, run, i);
    run := AloneAfter(s, run, i);
  }

  /** A sender that finds the handle of a service with a queue leaves its message there, behind all others. */
  lemma SendAlone(s: State, i: nat, q: nat, m: Message) returns (run: seq<State>)
    requires Inv(s) && i < |s.agents| && s.agents[i].Idle? && q < |s.services| && s.services[q].registered && s.services[q].queue
    ensures Alone(run, i) && |run| > 1 && run[0] == s && run[1] == Step(s, i, Send(q, m))
    ensures var t := run[|run| - 1];
            && i < |t.agents| && t.agents[i].Idle? && q < |t.services|
            && t.services[q] == s.services[q].(
                 msgs := s.services[q].msgs + [m], pushed := s.services[q].pushed + [m], inGlobal := true)
            && t.global == if s.services[q].inGlobal then s.global else s.global + [q]
  {
    hide Inv, Alone, Ok, Made;
    var s1 := TakeStep(s, i, Send(q, m));
    var s2 := TakeStep(s1, i, Go);
    KeptByHandle(s2, i, q);
    var s3 := TakeStep(s2, i, Go);
    run := AloneOne(s3, i);
    run := AloneAfter(s2, run, i);
    run := AloneAfter(s1, run, i);
    run := AloneAfter(s, run, i);
  }

  /** While the handle stands nobody gives up the last reference. */
  lemma KeptByHandle(s: State, i: nat, q: nat)
    requires Inv(s) && i < |s.agents| && s.agents[i].Releasing? && s.agents[i].q == q && q < |s.services| && s.services[q].registered
    ensures s.services[q].ref > 1
  {
    assert Ok(s, q);
    Became(s, i, s.agents[i], q);
    hide Total, Placed, Conserved, Made;
  }

  /** After a kill the handle is gone, and the queue is marked if nobody else refers to the context. */
  lemma KillAlone(s: State, i: nat, q: nat) returns (run: seq<State>)
    requires Inv(s) && i < |s.agents| && s.agents[i].Idle? && q < |s.services| && s.services[q].registered
    ensures Alone(run, i) && |run| > 1 && run[0] == s && run[1] == Step(s, i, Kill(q))
    ensures var t := run[|run| - 1];
            && i < |t.agents| && t.agents[i].Idle? && q < |t.services| && !t.services[q].registered
            && t.services[q].ref == s.services[q].ref - 1 && (t.services[q].release <==> s.services[q].ref == 1)
  {
    StandsUnmarked(s, q);
    hide Inv, Alone, Ok, Made;
    var s1 := TakeStep(s, i, Kill(q));
    run := ReleaseAlone(s1, i, q);
    run := AloneAfter(s, run, i);
  }

  lemma ReleaseAlone(s: State, i: nat, q: nat) returns (run: seq<State>)
    requires Inv(s) && i < |s.agents| && s.agents[i] == Releasing(q, Rest) && q < |s.services| && s.services[q].ref > 0
    requires !s.services[q].release
    ensures Alone(run, i) && run[0] == s
    ensures var v, t := s.services[q], run[|run| - 1];
            && i < |t.agents| && t.agents[i].Idle? && q < |t.services|
            && t.services[q].registered == v.registered && t.services[q].ref == v.ref - 1 && (t.services[q].release <==> v.ref == 1)
  {
    hide Inv, Alone, Ok, Made;
    var s1 := TakeStep(s, i, Go);
    if s.services[q].ref == 1 {
      var s2 := TakeStep(s1, i, Go);
      run := AloneOne(s2, i);
      run := AloneAfter(s1, run, i);
    } else {
      run := AloneOne(s1, i);
    }
    run := AloneAfter(s, run, i);
  }

  lemma StandsUnmarked(s: State, q: nat)
    requires Inv(s) && q < |s.services| && s.services[q].registered
    ensures s.services[q].ref > 0 && !s.services[q].release
  {
    assert Ok(s, q);
    hide Total, Placed, Conserved, Made;
  }

  /** A launch that succeeds leaves a service that is initialized, found by its handle, and in the list. */
  lemma LaunchAlone(s: State, i: nat) returns (run: seq<State>)
    requires Inv(s) && i < |s.agents| && s.agents[i].Idle?
    ensures Alone(run, i) && |run| > 1 && run[0] == s && run[1] == Step(s, i, Launch)
    ensures var q, t := |s.services|, run[|run| - 1];
            && i < |t.agents| && t.agents[i].Idle? && t.global == s.global + [q]
            && t.services == s.services + [NewService().(ref := 1, queue := true, init := true)]
  {
    hide Inv, Alone, Ok, Made;
    var s1 := TakeStep(s, i, Launch);
    var s2 := TakeStep(s1, i, Go);
    var s3 := TakeStep(s2, i, Succeed);
    var s4 := TakeStep(s3, i, Go);
    var s5 := TakeStep(s4, i, Go);
    var s6 := TakeStep(s5, i, Go);
    assert s6.services == s.services + [NewService().(ref := 1, queue := true, init := true)];
    run := AloneOne(s6, i);
    run := AloneAfter(s5, run, i);
    run := AloneAfter(s4, run, i);
    run := AloneAfter(s3, run, i);
    run := AloneAfter(s2, run, i);
    run := AloneAfter(s1, run, i);
    run := AloneAfter(s, run, i);
  }

  /** A worker whose turn with a queue is over gets the first of the others, and puts its own behind the last. */
  lemma RoundRobin(s: State, i: nat, q: nat) returns (run: seq<State>)
    requires Inv(s) && i < |s.agents| && s.agents[i] == Holding(q) && q < |s.services| && s.global != []
    requires s.services[q].registered && s.services[q].msgs != []
    ensures Alone(run, i) && run[0] == s
    ensures var t := run[|run| - 1];
            && i < |t.agents| && t.agents[i] == Holding(s.global[0]) && t.global == s.global[1..] + [q]
            && q < |t.services| && t.services[q].out == s.services[q].out + [Dispatched(s.services[q].msgs[0])]
  {
    hide Inv, Alone, Ok, Made;
    var s1 := TakeStep(s, i, Go);
    var s2 := TakeStep(s1, i, Last);
    var s3 := TakeStep(s2, i, Go);
    var s4 := TakeStep(s3, i, Go);
    KeptByHandle(s4, i, q);
    var s5 := TakeStep(s4, i, Go);
    run := AloneOne(s5, i);
    run := AloneAfter(s4, run, i);
    run := AloneAfter(s3, run, i);
    run := AloneAfter(s2, run, i);
    run := AloneAfter(s1, run, i);
    run := AloneAfter(s, run, i);
  }

  /** A worker that comes upon the marked queue of a service that is gone drops its messages, in order, and frees it. */
  lemma DropAlone(s: State, i: nat, q: nat) returns (run: seq<State>)
    requires Inv(s) && i < |s.agents| && s.agents[i] == Holding(q) && q < |s.services|
    requires !s.services[q].registered && s.services[q].release
    ensures Alone(run, i) && run[0] == s
    ensures var v, t := s.services[q], run[|run| - 1];
            && i < |t.agents| && t.agents[i].Idle? && q < |t.services| && t.services[q].freed && t.services[q].msgs == []
            && Messages(t.services[q].out) == Messages(v.out) + v.msgs && t.services[q].out[..|v.out|] == v.out
  {
    hide Inv, Alone, Ok, Made;
    var s1 := TakeStep(s, i, Go);
    var s2 := TakeStep(s1, i, Go);
    run := EmptyAlone(s2, i, q);
    run := AloneAfter(s1, run, i);
    run := AloneAfter(s, run, i);
  }

  lemma {:induction false} EmptyAlone(s: State, i: nat, q: nat) returns (run: seq<State>)
    requires Inv(s) && i < |s.agents| && s.agents[i] == Emptying(q) && q < |s.services|
    ensures Alone(run, i) && run[0] == s
    ensures var v, t := s.services[q], run[|run| - 1];
            && i < |t.agents| && t.agents[i].Idle? && q < |t.services| && t.services[q].freed && t.services[q].msgs == []
            && Messages(t.services[q].out) == Messages(v.out) + v.msgs && v.out <= t.services[q].out
    decreases |s.services[q].msgs|
  {
    hide Inv, Alone, Ok, Made;
    var v := s.services[q];
    var s1 := TakeStep(s, i, Go);
    if v.msgs == [] {
      var s2 := TakeStep(s1, i, Go);
      run := AloneOne(s2, i);
      run := AloneAfter(s1, run, i);
      assert Messages(v.out) + [] == Messages(v.out);
    } else {
      run := EmptyAlone(s1, i, q);
      DroppedOne(v);
    }
    run := AloneAfter(s, run, i);
  }

  lemma DroppedOne(v: Service)
    requires v.msgs != []
    ensures Messages(v.out + [Dropped(v.msgs[0])]) + v.msgs[1..] == Messages(v.out) + v.msgs
  {
    assert Messages(v.out + [Dropped(v.msgs[0])]) == Messages(v.out) + [v.msgs[0]];
    assert v.msgs == [v.msgs[0]] + v.msgs[1..];
  }
}
