/** The timing wheel as it runs, against the plain list of pending timers in the order they were
    added. */
module TimerWheel {
  import opened TimerSlots

  datatype Event = Event(handle: nat, session: int)

  /** What the wheel keeps of a timer: its expiry, modulo 2^32. */
  datatype Node = Node(expire: nat, event: Event)

  /** A timer as its user sees it: the tick it is due on, counted without bound. */
  datatype Timer = Timer(due: nat, event: Event)

  /** A dispatched timer, with the tick it was dispatched on. */
  datatype Dispatch = Dispatch(tick: nat, timer: Timer)

  /** `xs` with `x` behind it, if `c`. */
  function Snoc<T>(xs: seq<T>, c: bool, x: T): seq<T> { if c then xs + [x] else xs }

  function NodeOf(t: Timer): Node { Node(Clock(t.due), t.event) }

  /** The nodes of the timers whose slot at tick `now` is `s`, in order. */
  function ListOf(p: seq<Timer>, now: nat, s: Slot): seq<Node> {
    if p == [] then []
    else
      var x := p[|p| - 1];
      Snoc(ListOf(p[..|p| - 1], now, s), SlotOf(now, x.due) == s, NodeOf(x))
  }

  /** The timers due on tick `d`, in order. */
  function DueOn(p: seq<Timer>, d: nat): seq<Timer> {
    if p == [] then [] else Snoc(DueOn(p[..|p| - 1], d), p[|p| - 1].due == d, p[|p| - 1])
  }

  /** The others. */
  function NotDueOn(p: seq<Timer>, d: nat): seq<Timer> {
    if p == [] then [] else Snoc(NotDueOn(p[..|p| - 1], d), p[|p| - 1].due != d, p[|p| - 1])
  }

  function Timers(log: seq<Dispatch>): seq<Timer> {
    seq(|log|, j requires 0 <= j < |log| => log[j].timer)
  }

  /** The nodes that belong into slot `s` at 32-bit time `time`, in order. */
  function PlacedIn(nodes: seq<Node>, time: nat, s: Slot): seq<Node> {
    if nodes == [] then []
    else
      var x := nodes[|nodes| - 1];
      Snoc(PlacedIn(nodes[..|nodes| - 1], time, s), Place(x.expire, time) == s, x)
  }

  /** A timer to be added, `delay` ticks ahead. */
  datatype Request = Request(event: Event, delay: nat)

  predicate GoodRequests(rs: seq<Request>) { forall r :: r in rs ==> r.delay < MAXDELAY }

  predicate GoodBatches(bs: seq<seq<Request>>) { forall b :: b in bs ==> GoodRequests(b) }

  /** Every timer was dispatched on the tick it was due. */
  ghost predicate OnTime(log: seq<Dispatch>) {
    forall j :: 0 <= j < |log| ==> log[j].tick == log[j].timer.due
  }

  /** What was pushed to services are the events of the timers dispatched, in the same order. */
  ghost predicate EventsOf(sent: seq<Event>, ts: seq<Timer>) {
    |sent| == |ts| && forall j :: 0 <= j < |ts| ==> sent[j] == ts[j].event
  }

  /** What has happened: each timer was dispatched on the tick it was due, or is pending, and those due
      on the same tick keep the order they were added in. */
  ghost predicate Records(added: seq<Timer>, log: seq<Dispatch>, sent: seq<Event>, pending: seq<Timer>) {
    && OnTime(log) && EventsOf(sent, Timers(log))
    && forall d :: DueOn(added, d) == DueOn(Timers(log), d) + DueOn(pending, d)
  }

  ghost predicate AllPending(p: seq<Timer>, now: nat) {
    forall j :: 0 <= j < |p| ==> Pending(now, p[j].due)
  }

  class Wheel {
    const near: array<seq<Node>>
    const t: array2<seq<Node>>
    var time: nat

    /** The events pushed to their services. */
    var sent: seq<Event>

    /** The tick, counted without bound, the timers not dispatched yet, all timers ever added and
        what has been dispatched, each in order. */
    ghost var now: nat
    ghost var pending: seq<Timer>
    ghost var added: seq<Timer>
    ghost var log: seq<Dispatch>

    /** The list of a slot. */
    ghost function Slots(s: Slot): seq<Node>
      requires near.Length == TIME_NEAR && t.Length0 == 4 && t.Length1 == TIME_LEVEL
      reads near, t
    {
      match s
      case Near(idx) => if idx < TIME_NEAR then near[idx] else []
      case Level(i, idx) => if i < 4 && idx < TIME_LEVEL then t[i, idx] else []
    }

    ghost predicate Shape()
      reads this
    {
      near.Length == TIME_NEAR && t.Length0 == 4 && t.Length1 == TIME_LEVEL && time == Clock(now)
    }

    /** The wheel holds exactly the pending timers: each slot, in order, those that belong there. */
    ghost predicate Holds()
      requires Shape()
      reads this, near, t
    {
      AllPending(pending, now) && forall s :: Slots(s) == ListOf(pending, now, s)
    }

    ghost predicate Valid()
      reads this, near, t
    {
      Shape() && Holds() && Records(added, log, sent, pending)
    }

    constructor ()
      ensures Valid() && fresh(near) && fresh(t) && now == 0 && added == [] && log == [] && sent == []
    {
      near := new seq<Node>[TIME_NEAR](_ => []);
      t := new seq<Node>[4, TIME_LEVEL]((_, _) => []);
      time, sent := 0, [];
      now, pending, added, log := 0, [], [], [];
    }

    /** Append to a list. */
    method Link(s: Slot, node: Node)
      requires Shape() && (if s.Near? then s.idx < TIME_NEAR else s.i < 4 && s.idx < TIME_LEVEL)
      modifies near, t
      ensures forall u :: Slots(u) == Snoc(old(Slots(u)), u == s, node)
    {
      match s
      case Near(idx) => near[idx] := near[idx] + [node];
      case Level(i, idx) => t[i, idx] := t[i, idx] + [node];
    }

    /** Empty a list and return what was in it. */
    method LinkClear(s: Slot) returns (nodes: seq<Node>)
      requires Shape() && (if s.Near? then s.idx < TIME_NEAR else s.i < 4 && s.idx < TIME_LEVEL)
      modifies near, t
      ensures nodes == old(Slots(s)) && forall u :: Slots(u) == if u == s then [] else old(Slots(u))
    {
      match s
      case Near(idx) =>
        nodes := near[idx];
        near[idx] := [];
      case Level(i, idx) =>
        nodes := t[i, idx];
        t[i, idx] := [];
    }

    /** Put a node into the slot for its expiry. */
    method AddNode(node: Node)
      requires Shape() && node.expire < WRAP
      modifies near, t
      ensures var s := Place(node.expire, time);
              forall u :: Slots(u) == Snoc(old(Slots(u)), u == s, node)
    {
      var expire := node.expire;
      if SameBlock(expire, time, TIME_NEAR) {
        Link(Near(expire % TIME_NEAR), node);
      } else {
        var i := 0;
        while i < 3
          invariant i <= 3 && LevelOf(expire, time) >= i
        {
          if SameBlock(expire, time, Span(i + 1)) { break; }
          i := i + 1;
        }
        Link(Level(i, IndexAt(expire, i)), node);
      }
    }

    /** Add a timer, due `delay` ticks from now. */
    method TimerAdd(event: Event, delay: nat)
      requires Valid() && delay < MAXDELAY
      modifies this, near, t
      ensures Valid() && time == old(time) && now == old(now) && log == old(log) && sent == old(sent)
      ensures added == old(added) + [Timer(now + delay, event)]
      ensures pending == old(pending) + [Timer(now + delay, event)]
    {
      var node := Node(Clock(delay + time), event);
      ghost var x := Timer(now + delay, event);
      assert node == NodeOf(x) by { WrapAdd(now, delay); }
      AddNode(node);
      AddedLists(pending, now, x);
      RecordsAdd(added, log, sent, pending, x);
      pending, added := pending + [x], added + [x];
    }

    /** Empty a list and put its nodes where they belong now. */
    method MoveList(i: nat, idx: nat)
      requires Shape() && i < 4 && idx < TIME_LEVEL && Narrow(Slots(Level(i, idx)))
      modifies near, t
      ensures forall u :: Slots(u) == Joined(u == Level(i, idx), old(Slots(u)), PlacedIn(old(Slots(Level(i, idx))), time, u))
    {
      var current := LinkClear(Level(i, idx));
      var j := 0;
      forall u ensures Slots(u) == Joined(u == Level(i, idx), old(Slots(u)), PlacedIn(current[..0], time, u)) {
        JoinedNothing(u == Level(i, idx), old(Slots(u)), time, u);
      }
      while j < |current|
        invariant 0 <= j <= |current|
        invariant forall u :: Slots(u) == Joined(u == Level(i, idx), old(Slots(u)), PlacedIn(current[..j], time, u))
      {
        label Before:
        AddNode(current[j]);
        forall u ensures Slots(u) == Joined(u == Level(i, idx), old(Slots(u)), PlacedIn(current[..j + 1], time, u)) {
          hide Joined, PlacedIn, Snoc, Place;
          assert old@Before(Slots(u)) == Joined(u == Level(i, idx), old(Slots(u)), PlacedIn(current[..j], time, u));
          JoinedOne(u == Level(i, idx), old(Slots(u)), current, j, time, u);
        }
        j := j + 1;
      }
      assert current[..j] == current;
    }

    /** Move the list whose turn it is at the new time. */
    method MoveDue()
      requires Shape() && forall u :: Narrow(Slots(u))
      modifies near, t
      ensures forall u :: Slots(u) == Moved(MoveAt(time), old(Slots(u)), old(Slots(Source(MoveAt(time)))), time, u)
    {
      hide PlacedIn, Joined, MoveAt, MoveFrom, Moved;
      MoveStart(time);
      MovedIs(time);
      if time == 0 {
        MoveList(3, 0);
      } else {
        var mask, rest, i := TIME_NEAR, time / TIME_NEAR, 0;
        while time % mask == 0
          invariant i <= 3 && mask == Span(i) && rest == time / Span(i)
          invariant MoveAt(time) == MoveFrom(time, i)
          invariant forall u :: Slots(u) == old(Slots(u))
          decreases 4 - i
        {
          MoveNext(time, i);
          var idx := rest % TIME_LEVEL;
          if idx != 0 {
            MoveList(i, idx);
            return;
          }
          NotTopYet(time, i);
          mask, rest, i := mask * TIME_LEVEL, rest / TIME_LEVEL, i + 1;
        }
        MoveNext(time, i);
      }
    }

    /** Let the time go on by one. */
    method TimerShift()
      requires Valid() && AllPending(pending, now + 1)
      modifies this, near, t
      ensures Valid() && now == old(now) + 1
      ensures pending == old(pending) && added == old(added) && log == old(log) && sent == old(sent)
    {
      ghost var was := now;
      time := if time + 1 == WRAP then 0 else time + 1;
      now := now + 1;
      TickTime(was);
      ShiftLists(pending, was);
      forall u ensures Narrow(Slots(u)) { MovedExpire(pending, was, u); }
      hide ListOf, Moved, MoveAt, Clock, Records, Narrow, AllPending;
      ghost var m := MoveAt(time);
      assert Slots(Source(m)) == ListOf(pending, was, Source(m));
      MoveDue();
      forall u ensures Slots(u) == ListOf(pending, now, u) {
        assert old(Slots(u)) == ListOf(pending, was, u);
      }
    }

    /** Push the events of a list to their services. */
    method DispatchList(current: seq<Node>, ghost timers: seq<Timer>)
      requires current == NodesOf(timers)
      modifies this`sent, this`log
      ensures old(sent) <= sent && EventsOf(sent[|old(sent)|..], timers)
      ensures log == old(log) + Dispatches(now, timers)
    {
      for j := 0 to |current|
        invariant old(sent) <= sent && |sent| == |old(sent)| + j && log == old(log)
        invariant forall i :: 0 <= i < j ==> sent[|old(sent)| + i] == current[i].event
      {
        sent := sent + [current[j].event];
      }
      log := log + Dispatches(now, timers);
      forall i | 0 <= i < |timers| ensures sent[|old(sent)|..][i] == timers[i].event {
        assert current[i] == NodeOf(timers[i]);
      }
    }

    /** What other threads add while the lock is free. */
    method AddBatch(rs: seq<Request>)
      requires Valid() && GoodRequests(rs)
      modifies this, near, t
      ensures Valid() && now == old(now) && time == old(time) && log == old(log) && sent == old(sent)
      ensures added == old(added) + TimersOf(now, rs)
    {
      for j := 0 to |rs|
        invariant Valid() && now == old(now) && time == old(time) && log == old(log) && sent == old(sent)
        invariant added == old(added) + TimersOf(now, rs[..j])
      {
        assert rs[j] in rs;
        TimerAdd(rs[j].event, rs[j].delay);
        assert TimersOf(now, rs[..j + 1]) == TimersOf(now, rs[..j]) + [Timer(now + rs[j].delay, rs[j].event)];
      }
      assert rs[..|rs|] == rs;
    }

    /** Take the list of the current tick and dispatch it. */
    method DispatchNear()
      requires Valid()
      modifies this, near, t
      ensures Valid() && now == old(now) && time == old(time) && added == old(added) && old(log) <= log && old(sent) <= sent
      ensures pending == NotDueOn(old(pending), now) && near[time % TIME_NEAR] == []
    {
      hide ListOf, DueOn, NotDueOn, NodesOf, Dispatches, EventsOf, Records, AllPending, Clock;
      var idx := time % TIME_NEAR;
      ghost var due := DueOn(pending, now);
      NearList(pending, now);
      WithoutDue(pending, now);
      var current := LinkClear(Near(idx));
      DispatchList(current, due);
      assert sent == old(sent) + sent[|old(sent)|..];
      RecordsStep(added, old(log), old(sent), sent[|old(sent)|..], pending, now);
      pending := NotDueOn(pending, now);
    }

    /** Dispatch what is due now.  While a list is being dispatched the lock is free, and other threads
        add timers: `arrivals` are the batches they add, one after each list; `taken` have been. */
    method TimerExecute(arrivals: seq<seq<Request>>) returns (taken: nat)
      requires Valid() && GoodBatches(arrivals)
      modifies this, near, t
      ensures Valid() && now == old(now) && AllPending(pending, now + 1)
      ensures taken <= |arrivals| && added == old(added) + Requested(now, arrivals[..taken])
      ensures old(log) <= log && old(sent) <= sent
      ensures |sent| == |log| && forall j :: 0 <= j < |log| ==> sent[j] == log[j].timer.event
    {
      hide Wheel.Holds, Records, AllPending, TimersOf, Requested, Clock, GoodRequests;
      taken := 0;
      var idx := time % TIME_NEAR;
      RequestedNone(now, arrivals, added);
      while near[idx] != []
        invariant taken <= |arrivals| && Valid() && now == old(now) && time == old(time) && old(log) <= log && old(sent) <= sent
        invariant added == old(added) + Requested(now, arrivals[..taken])
        decreases |arrivals| - taken, near[idx] != []
      {
        DispatchNear();
        if taken < |arrivals| {
          assert arrivals[taken] in arrivals;
          RequestedNext(now, arrivals, taken, old(added));
          AddBatch(arrivals[taken]);
          taken := taken + 1;
        }
      }
      NothingLeft();
      SentAre();
    }

    lemma SentAre()
      requires Valid()
      ensures |sent| == |log| && forall j :: 0 <= j < |log| ==> sent[j] == log[j].timer.event
    {
      hide Wheel.Holds, OnTime, DueOn;
      assert forall j :: 0 <= j < |log| ==> Timers(log)[j] == log[j].timer;
    }

    lemma NothingLeft()
      requires Valid() && near[time % TIME_NEAR] == []
      ensures AllPending(pending, now + 1)
    {
      assert Slots(Near(time % TIME_NEAR)) == [];
      NothingDue(pending, now);
    }

    /** One tick.  Timers are dispatched on the tick they are due, and when it is over none is left that
        was due by then; so for every such tick the timers dispatched on it are those added for it, in
        the order they were added. */
    method TimerUpdate(first: seq<seq<Request>>, second: seq<seq<Request>>) returns (n1: nat, n2: nat)
      requires Valid() && GoodBatches(first) && GoodBatches(second)
      modifies this, near, t
      ensures Valid() && now == old(now) + 1 && old(log) <= log
      ensures n1 <= |first| && n2 <= |second|
      ensures added == old(added) + Requested(old(now), first[..n1]) + Requested(now, second[..n2])
      ensures forall d: nat :: d <= now ==> DueOn(Timers(log), d) == DueOn(added, d)
      ensures old(sent) <= sent && |sent| == |log| && forall j :: 0 <= j < |log| ==> sent[j] == log[j].timer.event
    {
      n1 := TimerExecute(first);
      TimerShift();
      n2 := TimerExecute(second);
      forall d: nat | d <= now ensures DueOn(Timers(log), d) == DueOn(added, d) {
        NoneOverdue(pending, now + 1, d);
        assert DueOn(added, d) == DueOn(Timers(log), d) + DueOn(pending, d);
      }
    }
  }

  /** All expiries have 32 bits. */
  ghost predicate Narrow(nodes: seq<Node>) { forall x :: x in nodes ==> x.expire < WRAP }

  /** The list that is moved. */
  function Source(m: Move): Slot { if m.List? then Level(m.i, m.idx) else Near(TIME_NEAR) }

  /** A list, emptied or not, with more nodes behind it. */
  function Joined(emptied: bool, list: seq<Node>, more: seq<Node>): seq<Node> { (if emptied then [] else list) + more }

  lemma JoinedNothing(emptied: bool, list: seq<Node>, time: nat, u: Slot)
    ensures Joined(emptied, list, PlacedIn([], time, u)) == if emptied then [] else list
  {
  }

  lemma JoinedOne(emptied: bool, list: seq<Node>, nodes: seq<Node>, j: nat, time: nat, u: Slot)
    requires j < |nodes|
    ensures Joined(emptied, list, PlacedIn(nodes[..j + 1], time, u))
         == Snoc(Joined(emptied, list, PlacedIn(nodes[..j], time, u)), u == Place(nodes[j].expire, time), nodes[j])
  {
    assert nodes[..j + 1][..j] == nodes[..j];
  }

  /** What becomes of list `u` when the nodes of list `source` are moved. */
  function Moved(m: Move, list: seq<Node>, source: seq<Node>, time: nat, u: Slot): seq<Node> {
    match m
    case Nothing => list
    case List(_, _) => Joined(u == Source(m), list, PlacedIn(source, time, u))
  }

  /** Where the search for the list to move stands: the levels below `i` have come round. */
  function MoveFrom(ct: nat, i: nat): Move
    requires i <= 4
    decreases 4 - i
  {
    if i == 4 || ct % Span(i) != 0 then Nothing
    else if IndexAt(ct, i) != 0 then List(i, IndexAt(ct, i))
    else MoveFrom(ct, i + 1)
  }

  lemma MoveStart(ct: nat)
    ensures if ct == 0 then MoveAt(ct) == List(3, 0) else MoveAt(ct) == MoveFrom(ct, 0)
  {
    if ct != 0 { Groups(ct); }
  }

  lemma MoveNext(ct: nat, i: nat)
    requires i <= 3
    ensures ct % Span(i) != 0 ==> MoveFrom(ct, i) == Nothing
    ensures ct % Span(i) == 0 && IndexAt(ct, i) != 0 ==> MoveFrom(ct, i) == List(i, IndexAt(ct, i))
    ensures ct % Span(i) == 0 && IndexAt(ct, i) == 0 ==> MoveFrom(ct, i) == MoveFrom(ct, i + 1)
  {
  }

  lemma MovedIs(time: nat)
    ensures var m := MoveAt(time);
            forall list, source, u :: Moved(m, list, source, time, u)
              == if m.List? then Joined(u == Source(m), list, PlacedIn(source, time, u)) else list
  {
  }

  function Dispatches(tick: nat, ts: seq<Timer>): seq<Dispatch> {
    seq(|ts|, j requires 0 <= j < |ts| => Dispatch(tick, ts[j]))
  }

  /** The timers that batches of requests stand for. */
  function Requested(now: nat, bs: seq<seq<Request>>): seq<Timer> {
    if bs == [] then [] else Requested(now, bs[..|bs| - 1]) + TimersOf(now, bs[|bs| - 1])
  }

  lemma RequestedNone(now: nat, bs: seq<seq<Request>>, before: seq<Timer>)
    ensures before + Requested(now, bs[..0]) == before
  {
  }

  lemma RequestedNext(now: nat, bs: seq<seq<Request>>, n: nat, before: seq<Timer>)
    requires n < |bs|
    ensures before + Requested(now, bs[..n + 1]) == before + Requested(now, bs[..n]) + TimersOf(now, bs[n])
  {
    assert bs[..n + 1][..n] == bs[..n];
  }

  function TimersOf(now: nat, rs: seq<Request>): seq<Timer> {
    seq(|rs|, j requires 0 <= j < |rs| => Timer(now + rs[j].delay, rs[j].event))
  }

  // ---------------------------------------------------------------- dispatching

  /** The near slot of a tick holds what is due on it. */
  lemma NearSlot(now: nat, due: nat)
    requires Pending(now, due)
    ensures SlotOf(now, due) == Near(Clock(now) % TIME_NEAR) <==> due == now
  {
  }

  /** The timers as the wheel keeps them. */
  function NodesOf(ts: seq<Timer>): seq<Node> { seq(|ts|, j requires 0 <= j < |ts| => NodeOf(ts[j])) }

  lemma {:induction false} NearList(p: seq<Timer>, now: nat)
    requires AllPending(p, now)
    ensures ListOf(p, now, Near(Clock(now) % TIME_NEAR)) == NodesOf(DueOn(p, now))
  {
    if p != [] {
      NearList(p[..|p| - 1], now);
      NearSlot(now, p[|p| - 1].due);
    }
  }

  /** Taking out what is due now empties its slot and leaves the others. */
  lemma {:induction false} WithoutDueAt(p: seq<Timer>, now: nat, u: Slot)
    requires AllPending(p, now)
    ensures ListOf(NotDueOn(p, now), now, u) == if u == Near(Clock(now) % TIME_NEAR) then [] else ListOf(p, now, u)
  {
    if p != [] {
      var q, x := p[..|p| - 1], p[|p| - 1];
      WithoutDueAt(q, now, u);
      NearSlot(now, x.due);
      if x.due != now { AddedLists(NotDueOn(q, now), now, x); }
    }
  }

  lemma {:induction false} OthersDue(p: seq<Timer>, now: nat, d: nat)
    ensures DueOn(NotDueOn(p, now), d) == if d == now then [] else DueOn(p, d)
  {
    if p != [] {
      var q, x := p[..|p| - 1], p[|p| - 1];
      OthersDue(q, now, d);
      if x.due != now { AddedDue(NotDueOn(q, now), x); }
    }
  }

  lemma {:induction false} StillPending(p: seq<Timer>, now: nat)
    requires AllPending(p, now)
    ensures AllPending(NotDueOn(p, now), now)
  {
    if p != [] { StillPending(p[..|p| - 1], now); }
  }

  lemma WithoutDue(p: seq<Timer>, now: nat)
    requires AllPending(p, now)
    ensures AllPending(NotDueOn(p, now), now)
    ensures forall u :: ListOf(NotDueOn(p, now), now, u)
                        == if u == Near(Clock(now) % TIME_NEAR) then [] else ListOf(p, now, u)
  {
    StillPending(p, now);
    forall u { WithoutDueAt(p, now, u); }
  }

  lemma {:induction false} DueOnConcat(p: seq<Timer>, q: seq<Timer>, d: nat)
    ensures DueOn(p + q, d) == DueOn(p, d) + DueOn(q, d)
    decreases |q|
  {
    if q == [] {
      assert p + q == p;
    } else {
      DueOnConcat(p, q[..|q| - 1], d);
      assert (p + q)[..|p + q| - 1] == p + q[..|q| - 1];
    }
  }

  lemma {:induction false} DueOnDue(p: seq<Timer>, now: nat, d: nat)
    ensures DueOn(DueOn(p, now), d) == if d == now then DueOn(p, now) else []
  {
    if p != [] {
      var q, x := p[..|p| - 1], p[|p| - 1];
      DueOnDue(q, now, d);
      if x.due == now { AddedDue(DueOn(q, now), x); }
    }
  }

  /** Dispatching the timers due now keeps the records. */
  lemma RecordsStep(
      added: seq<Timer>, log: seq<Dispatch>, sent: seq<Event>, more: seq<Event>, p: seq<Timer>, now: nat)
    requires Records(added, log, sent, p) && EventsOf(more, DueOn(p, now))
    ensures Records(added, log + Dispatches(now, DueOn(p, now)), sent + more, NotDueOn(p, now))
  {
    var due := DueOn(p, now);
    var ts := Timers(log);
    LogStep(log, now, due);
    EventsStep(sent, ts, more, due);
    OnTimeStep(log, p, now);
    hide Timers, EventsOf, NodesOf, OnTime, Dispatches;
    hide DueOn, NotDueOn;
    forall d ensures DueOn(added, d) == DueOn(ts + due, d) + DueOn(NotDueOn(p, now), d) {
      assert DueOn(added, d) == DueOn(ts, d) + DueOn(p, d);
      RecordsOf(added, ts, p, now, d);
    }
  }

  lemma RecordsOf(added: seq<Timer>, ts: seq<Timer>, p: seq<Timer>, now: nat, d: nat)
    requires DueOn(added, d) == DueOn(ts, d) + DueOn(p, d)
    ensures DueOn(added, d) == DueOn(ts + DueOn(p, now), d) + DueOn(NotDueOn(p, now), d)
  {
    hide DueOn, NotDueOn;
    DueOnConcat(ts, DueOn(p, now), d);
    DueOnDue(p, now, d);
    OthersDue(p, now, d);
    assert DueOn(ts, d) + [] == DueOn(ts, d) && DueOn(added, d) + [] == DueOn(added, d);
  }

  lemma LogStep(log: seq<Dispatch>, now: nat, due: seq<Timer>)
    ensures Timers(log + Dispatches(now, due)) == Timers(log) + due
  {
  }

  lemma EventsStep(sent: seq<Event>, ts: seq<Timer>, more: seq<Event>, us: seq<Timer>)
    requires EventsOf(sent, ts) && EventsOf(more, us)
    ensures EventsOf(sent + more, ts + us)
  {
  }

  lemma OnTimeStep(log: seq<Dispatch>, p: seq<Timer>, now: nat)
    requires OnTime(log)
    ensures OnTime(log + Dispatches(now, DueOn(p, now)))
  {
    AllDue(p, now);
  }

  lemma RecordsAdd(added: seq<Timer>, log: seq<Dispatch>, sent: seq<Event>, p: seq<Timer>, x: Timer)
    requires Records(added, log, sent, p)
    ensures Records(added + [x], log, sent, p + [x])
  {
    AddedDue(p, x);
    AddedDue(added, x);
  }

  lemma {:induction false} AllDue(p: seq<Timer>, d: nat)
    ensures forall j :: 0 <= j < |DueOn(p, d)| ==> DueOn(p, d)[j].due == d
  {
    if p != [] { AllDue(p[..|p| - 1], d); }
  }

  /** With the slot of the current tick empty, everything is due later. */
  lemma {:induction false} NothingDue(p: seq<Timer>, now: nat)
    requires AllPending(p, now) && ListOf(p, now, Near(Clock(now) % TIME_NEAR)) == []
    ensures AllPending(p, now + 1)
  {
    if p != [] {
      NearSlot(now, p[|p| - 1].due);
      NothingDue(p[..|p| - 1], now);
    }
  }

  lemma {:induction false} NoneOverdue(p: seq<Timer>, now: nat, d: nat)
    requires AllPending(p, now) && d < now
    ensures DueOn(p, d) == []
  {
    if p != [] { NoneOverdue(p[..|p| - 1], now, d); }
  }

  lemma {:induction false} DueCount(p: seq<Timer>, x: Timer)
    ensures multiset(DueOn(p, x.due))[x] == multiset(p)[x]
  {
    if p != [] {
      DueCount(p[..|p| - 1], x);
      assert p == p[..|p| - 1] + [p[|p| - 1]];
    }
  }

  /** When the tick a timer is due on is over, it has been dispatched as often as it was added, and
      every time on that tick; and each time its event was pushed. */
  lemma ExactlyOnce(added: seq<Timer>, log: seq<Dispatch>, sent: seq<Event>, pending: seq<Timer>, x: Timer)
    requires Records(added, log, sent, pending)
    requires DueOn(Timers(log), x.due) == DueOn(added, x.due)
    ensures multiset(Timers(log))[x] == multiset(added)[x]
    ensures |sent| == |log|
    ensures forall j :: 0 <= j < |log| && log[j].timer == x ==> log[j].tick == x.due && sent[j] == x.event
  {
    DueCount(Timers(log), x);
    DueCount(added, x);
  }

  // ---------------------------------------------------------------- adding and moving

  lemma WrapAdd(a: nat, b: nat)
    ensures Clock(b + Clock(a)) == Clock(a + b)
  {
  }

  lemma AddedLists(p: seq<Timer>, now: nat, x: Timer)
    ensures forall s :: ListOf(p + [x], now, s) == Snoc(ListOf(p, now, s), SlotOf(now, x.due) == s, NodeOf(x))
  {
    assert (p + [x])[..|p|] == p;
  }

  lemma AddedDue(p: seq<Timer>, x: Timer)
    ensures forall d :: DueOn(p + [x], d) == Snoc(DueOn(p, d), x.due == d, x)
  {
    assert (p + [x])[..|p|] == p;
  }

  lemma TickTime(now: nat)
    ensures Clock(now + 1) == NextTime(Clock(now))
  {
  }

  lemma NotTopYet(ct: nat, i: nat)
    requires 0 < ct < WRAP && i <= 3 && ct % Span(i) == 0 && IndexAt(ct, i) == 0
    ensures i < 3 && Span(i + 1) == Span(i) * TIME_LEVEL && ct / Span(i + 1) == ct / Span(i) / TIME_LEVEL
  {
    Groups(ct);
  }

  /** All nodes of a list carry 32-bit expiries. */
  lemma MovedExpire(p: seq<Timer>, now: nat, s: Slot)
    ensures Narrow(ListOf(p, now, s))
  {
    if p != [] { MovedExpire(p[..|p| - 1], now, s); }
  }

  /** What is placed lies no higher than the list it came from. */
  lemma {:induction false} PlacedLow(p: seq<Timer>, now: nat, u: Slot)
    requires AllPending(p, now + 1) && MoveAt(Clock(now + 1)).List?
    ensures var m := MoveAt(Clock(now + 1));
            Height(u) > m.i ==> PlacedIn(ListOf(p, now, Level(m.i, m.idx)), Clock(now + 1), u) == []
  {
    if p != [] {
      hide Place, MoveAt, Clock, Pending;
      var q, x := p[..|p| - 1], p[|p| - 1];
      PlacedLow(q, now, u);
      TickSlot(now, x.due);
      var m := MoveAt(Clock(now + 1));
      PlacedAppend(ListOf(q, now, Level(m.i, m.idx)), NodeOf(x), Clock(now + 1), u);
    }
  }

  lemma PlacedAppend(nodes: seq<Node>, x: Node, time: nat, u: Slot)
    ensures PlacedIn(nodes + [x], time, u) == Snoc(PlacedIn(nodes, time, u), Place(x.expire, time) == u, x)
  {
    assert (nodes + [x])[..|nodes|] == nodes;
  }

  /** What a tick does to the slot of a pending timer. */
  lemma TickSlot(now: nat, due: nat)
    requires Pending(now + 1, due)
    ensures var m := MoveAt(Clock(now + 1));
            if m.List? && SlotOf(now, due) == Level(m.i, m.idx) then Height(SlotOf(now + 1, due)) <= m.i
            else SlotOf(now + 1, due) == SlotOf(now, due) && (m.List? ==> Height(SlotOf(now, due)) > m.i)
  {
    TickTime(now);
    PendingAhead(now + 1, due);
    TickPlace(Clock(due), Clock(now));
  }

  /** Moving the list whose turn it is puts every pending timer into its slot for the next tick, in
      the order the timers were added. */
  lemma {:induction false} ShiftList(p: seq<Timer>, now: nat, u: Slot)
    requires AllPending(p, now + 1)
    ensures var m := MoveAt(Clock(now + 1));
            ListOf(p, now + 1, u) == Moved(m, ListOf(p, now, u), ListOf(p, now, Source(m)), Clock(now + 1), u)
  {
    if p != [] {
      hide Place, MoveAt, Clock, Pending;
      var q, x := p[..|p| - 1], p[|p| - 1];
      var ct := Clock(now + 1);
      ShiftList(q, now, u);
      TickSlot(now, x.due);
      if MoveAt(ct).List? {
        var m := Level(MoveAt(ct).i, MoveAt(ct).idx);
        PlacedLow(q, now, u);
        PlacedAppend(ListOf(q, now, m), NodeOf(x), ct, u);
      }
    }
  }

  lemma ShiftLists(p: seq<Timer>, now: nat)
    requires AllPending(p, now + 1)
    ensures var m := MoveAt(Clock(now + 1));
            forall u :: ListOf(p, now + 1, u)
                        == Moved(m, ListOf(p, now, u), ListOf(p, now, Source(m)), Clock(now + 1), u)
  {
    forall u {
      ShiftList(p, now, u);
    }
  }
}
