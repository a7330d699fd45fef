/** How services are scheduled: queues, the global list, worker threads, senders, launches and kills,
    each locked section a step of its own, in any interleaving.

    A service stands for a context and its queue, and its number for the handle, which is not used
    again.  What a callback does while a message is dispatched is done by other agents here. */
module Scheduler {

  type Message = nat

  /** What became of a message. */
  datatype Outcome = Dispatched(m: Message) | Dropped(m: Message)

  datatype Service = Service(
    ref: nat,              // references to the context
    registered: bool,      // found by its handle; that counts as a reference
    init: bool,
    queue: bool,           // the context's pointer to its queue is set
    inGlobal: bool,
    release: bool,
    freed: bool,           // the queue is gone
    msgs: seq<Message>,
    pushed: seq<Message>,  // all messages ever pushed, in order
    out: seq<Outcome>)     // what became of those that were taken out, in order

  /** What an agent goes on with when it has given up a reference: nothing, the next queue, or the queue
      of the same service. */
  datatype Then = Rest | Carry(nq: nat) | Publish | Retire | Discard

  datatype Agent =
    | Idle
    | Holding(q: nat)             // a worker with a queue
    | Running(q: nat)             // ... and a reference to its context
    | Finished(q: nat)            // the same, its turn over
    | Swapping(q: nat, nq: nat)   // ... with the next queue
    | Pushing(q: nat, m: Message) // a sender with a reference
    | Registering(q: nat)         // the creator, with a reference, the context registered and without a queue yet
    | Launching(q: nat)           // ... with the queue
    | Releasing(q: nat, next: Then)
    | Deleting(q: nat, next: Then) // gave up the last reference
    | Marking(q: nat)             // the creator, about to note that the context is initialized
    | Publishing(q: nat, ok: bool) // the creator, having done so, or being the last to give it up
    | Retiring(q: nat)
    | Dropping(q: nat)
    | Emptying(q: nat)
    | Freeing(q: nat)

  datatype State = State(services: seq<Service>, global: seq<nat>, agents: seq<Agent>)

  /** What an agent may do next where it has a choice. */
  datatype Action =
    | Launch | Send(q: nat, m: Message) | Kill(q: nat) | Take // of an idle agent
    | Succeed | FailInit                                      // of a creator
    | More | Last                                             // of a worker, after a message
    | Go

  function NewService(): Service {
    Service(2, true, false, false, true, false, false, [], [], [])
  }

  predicate Enabled(s: State, i: nat, a: Action) {
    i < |s.agents| &&
    match s.agents[i]
    case Idle => a.Launch? || (a.Send? && a.q < |s.services|) || (a.Kill? && a.q < |s.services|) || a.Take?
    case Launching(_) => a.Succeed? || a.FailInit?
    case Running(_) => a.More? || a.Last?
    case _ => a.Go?
  }

  /** Does an agent refer to service or queue `c`? */
  predicate Names(x: Agent, c: nat) {
    match x
    case Idle => false
    case Swapping(q, nq) => c == q || c == nq
    case Releasing(q, next) => c == q || (next.Carry? && c == next.nq)
    case Deleting(q, next) => c == q || (next.Carry? && c == next.nq)
    case _ => c == x.q
  }

  ghost predicate Proper(s: State) {
    && (forall q :: q in s.global ==> q < |s.services|)
    && forall i: nat, c: nat :: i < |s.agents| && Names(s.agents[i], c) ==> c < |s.services|
  }

  // ---------------------------------------------------------------- steps

  function SetService(s: State, q: nat, v: Service): State
    requires q < |s.services|
  {
    s.(services := s.services[q := v])
  }

  function SetAgent(s: State, i: nat, x: Agent): State
    requires i < |s.agents|
  {
    s.(agents := s.agents[i := x])
  }

  function Schedule(s: State, q: nat): State { s.(global := s.global + [q]) }

  /** What comes after giving up a reference; `ok`: it was not the last. */
  function After(q: nat, next: Then, ok: bool): Agent {
    match next
    case Rest => Idle
    case Carry(nq) => Holding(nq)
    case Publish => if ok then Marking(q) else Publishing(q, false)
    case Retire => Retiring(q)
    case Discard => Dropping(q)
  }

  function PushMessage(v: Service, m: Message): Service {
    v.(msgs := v.msgs + [m], pushed := v.pushed + [m], inGlobal := true)
  }

  function TakeOut(v: Service, o: Outcome): Service
    requires v.msgs != []
  {
    v.(msgs := v.msgs[1..], out := v.out + [o])
  }

  /** Agent `i` finds the context of its queue, or not. */
  function LookStep(s: State, i: nat, q: nat): State
    requires i < |s.agents| && q < |s.services|
  {
    var v := s.services[q];
    if v.registered then SetAgent(SetService(s, q, v.(ref := v.ref + 1)), i, Running(q)) else SetAgent(s, i, Dropping(q))
  }

  /** Take a message and dispatch it, or stop being scheduled. */
  function RunStep(s: State, i: nat, q: nat, more: bool): State
    requires i < |s.agents| && q < |s.services|
  {
    var v := s.services[q];
    if v.msgs == [] then SetAgent(SetService(s, q, v.(inGlobal := false)), i, Releasing(q, Rest))
    else SetAgent(SetService(s, q, TakeOut(v, Dispatched(v.msgs[0]))), i, if more then Running(q) else Finished(q))
  }

  /** Look for the next queue. */
  function FinishStep(s: State, i: nat, q: nat): State
    requires i < |s.agents|
  {
    if s.global == [] then SetAgent(s, i, Releasing(q, Carry(q)))
    else SetAgent(s.(global := s.global[1..]), i, Swapping(q, s.global[0]))
  }

  /** The creator makes the queue, which the context points to from now on. */
  function CreateStep(s: State, i: nat, q: nat): State
    requires i < |s.agents| && q < |s.services|
  {
    SetAgent(SetService(s, q, s.services[q].(queue := true)), i, Launching(q))
  }

  /** Append a message, and schedule the queue if it was not.  If the context has none yet, the message is lost. */
  function PushStep(s: State, i: nat, q: nat, m: Message): State
    requires i < |s.agents| && q < |s.services|
  {
    var v := s.services[q];
    if !v.queue then SetAgent(s, i, Releasing(q, Rest))
    else
      var t := SetAgent(SetService(s, q, PushMessage(v, m)), i, Releasing(q, Rest));
      if v.inGlobal then t else Schedule(t, q)
  }

  function ReleaseStep(s: State, i: nat, q: nat, next: Then): State
    requires i < |s.agents| && q < |s.services|
  {
    var v := s.services[q];
    if v.ref <= 1 then SetAgent(SetService(s, q, v.(ref := 0)), i, Deleting(q, next))
    else SetAgent(SetService(s, q, v.(ref := v.ref - 1)), i, After(q, next, true))
  }

  /** Mark the queue for release, and schedule it if it was not. */
  function DeleteStep(s: State, i: nat, q: nat, next: Then): State
    requires i < |s.agents| && q < |s.services|
  {
    var v := s.services[q];
    var t := SetAgent(SetService(s, q, v.(release := true)), i, After(q, next, false));
    if v.inGlobal then t else Schedule(t, q)
  }

  /** The creator writes to the context, to which it does not refer any more: if others have given it up in
      the meantime, the write goes astray. */
  function MarkStep(s: State, i: nat, q: nat): State
    requires i < |s.agents| && q < |s.services|
  {
    var v := s.services[q];
    if v.ref > 0 then SetAgent(SetService(s, q, v.(init := true)), i, Publishing(q, true))
    else SetAgent(s, i, Publishing(q, false))
  }

  function PublishStep(s: State, i: nat, q: nat): State
    requires i < |s.agents|
  {
    SetAgent(Schedule(s, q), i, Idle)
  }

  function RetireStep(s: State, i: nat, q: nat): State
    requires i < |s.agents| && q < |s.services|
  {
    var v := s.services[q];
    if v.registered then SetAgent(SetService(s, q, v.(registered := false)), i, Releasing(q, Discard))
    else SetAgent(s, i, Dropping(q))
  }

  /** A queue without a context: to be emptied if it is marked, else to be looked at again later. */
  function DropStep(s: State, i: nat, q: nat): State
    requires i < |s.agents| && q < |s.services|
  {
    if s.services[q].release then SetAgent(s, i, Emptying(q)) else SetAgent(Schedule(s, q), i, Idle)
  }

  function EmptyStep(s: State, i: nat, q: nat): State
    requires i < |s.agents| && q < |s.services|
  {
    var v := s.services[q];
    if v.msgs == [] then SetAgent(SetService(s, q, v.(inGlobal := false)), i, Freeing(q))
    else SetService(s, q, TakeOut(v, Dropped(v.msgs[0])))
  }

  function FreeStep(s: State, i: nat, q: nat): State
    requires i < |s.agents| && q < |s.services|
  {
    SetAgent(SetService(s, q, s.services[q].(freed := true)), i, Idle)
  }

  /** One step of agent `i`. */
  function Step(s: State, i: nat, a: Action): State
    requires Enabled(s, i, a) && (forall c: nat :: Names(s.agents[i], c) ==> c < |s.services|)
  {
    var x := s.agents[i];
    assert !x.Idle? ==> Names(x, x.q);
    match x
    case Idle => IdleStep(s, i, a)
    case Registering(q) => CreateStep(s, i, q)
    case Launching(q) => SetAgent(s, i, Releasing(q, if a.Succeed? then Publish else Retire))
    case Holding(q) => LookStep(s, i, q)
    case Running(q) => RunStep(s, i, q, a.More?)
    case Finished(q) => FinishStep(s, i, q)
    case Swapping(q, nq) => SetAgent(Schedule(s, q), i, Releasing(q, Carry(nq)))
    case Pushing(q, m) => PushStep(s, i, q, m)
    case Releasing(q, next) => ReleaseStep(s, i, q, next)
    case Deleting(q, next) => DeleteStep(s, i, q, next)
    case Marking(q) => MarkStep(s, i, q)
    case Publishing(q, _) => PublishStep(s, i, q)
    case Retiring(q) => RetireStep(s, i, q)
    case Dropping(q) => DropStep(s, i, q)
    case Emptying(q) => EmptyStep(s, i, q)
    case Freeing(q) => FreeStep(s, i, q)
  }

  /** A launch, a send, a kill, or a worker looking for a queue. */
  function IdleStep(s: State, i: nat, a: Action): State
    requires Enabled(s, i, a) && s.agents[i].Idle?
  {
    match a
    case Launch => SetAgent(s.(services := s.services + [NewService()]), i, Registering(|s.services|))
    case Send(q, m) =>
      var v := s.services[q];
      if v.registered then SetAgent(SetService(s, q, v.(ref := v.ref + 1)), i, Pushing(q, m)) else s
    case Kill(q) =>
      var v := s.services[q];
      if v.registered then SetAgent(SetService(s, q, v.(registered := false)), i, Releasing(q, Rest)) else s
    case _ =>
      if s.global == [] then s else SetAgent(s.(global := s.global[1..]), i, Holding(s.global[0]))
  }

  // ---------------------------------------------------------------- counting

  /** What agents can have of a service: a reference; its queue, as a worker, as its creator, to be
      emptied or to be freed; or they are deleting it, running it, or publishing it after it was
      deleted, or have not made its queue yet. */
  datatype Kind = Ref | Hand | Maker | Del | Run | Drain | Free | Gone | New

  function One(b: bool): nat { if b then 1 else 0 }

  function ThenHas(q: nat, t: Then, k: Kind, c: nat): nat {
    match t
    case Rest => 0
    case Carry(nq) => One(nq == c && k.Hand?)
    case Discard => One(q == c && k.Hand?)
    case _ => One(q == c && k.Maker?)
  }

  /** How much of kind `k` an agent has of service `c`. */
  function Has(x: Agent, k: Kind, c: nat): nat {
    match x
    case Idle => 0
    case Holding(q) => One(q == c && k.Hand?)
    case Running(q) => One(q == c && (k.Hand? || k.Ref? || k.Run?))
    case Finished(q) => One(q == c && (k.Hand? || k.Ref?))
    case Swapping(q, nq) => One(q == c && (k.Hand? || k.Ref?)) + One(nq == c && k.Hand?)
    case Pushing(q, _) => One(q == c && k.Ref?)
    case Registering(q) => One(q == c && (k.Maker? || k.Ref? || k.New?))
    case Launching(q) => One(q == c && (k.Maker? || k.Ref?))
    case Releasing(q, next) => One(q == c && k.Ref?) + ThenHas(q, next, k, c)
    case Deleting(q, next) => One(q == c && k.Del?) + ThenHas(q, next, k, c)
    case Marking(q) => One(q == c && k.Maker?)
    case Publishing(q, ok) => One(q == c && (k.Maker? || (k.Gone? && !ok) || (k.Run? && ok)))
    case Retiring(q) => One(q == c && k.Maker?)
    case Dropping(q) => One(q == c && k.Hand?)
    case Emptying(q) => One(q == c && k.Drain?)
    case Freeing(q) => One(q == c && k.Free?)
  }

  /** How much all agents have. */
  function Total(agents: seq<Agent>, k: Kind, c: nat): nat {
    if agents == [] then 0 else Total(agents[..|agents| - 1], k, c) + Has(agents[|agents| - 1], k, c)
  }

  lemma {:induction false} TotalUpdate(agents: seq<Agent>, i: nat, x: Agent, k: Kind, c: nat)
    requires i < |agents|
    ensures Total(agents[i := x], k, c) == Total(agents, k, c) - Has(agents[i], k, c) + Has(x, k, c)
    ensures Has(agents[i], k, c) <= Total(agents, k, c)
    decreases |agents|
  {
    hide Has;
    var n := |agents| - 1;
    if i < n {
      TotalUpdate(agents[..n], i, x, k, c);
      assert agents[i := x][..n] == agents[..n][i := x];
    } else {
      assert agents[i := x][..n] == agents[..n];
    }
  }

  lemma {:induction false} TotalNone(agents: seq<Agent>, k: Kind, c: nat)
    requires forall i :: 0 <= i < |agents| ==> !Names(agents[i], c)
    ensures Total(agents, k, c) == 0
  {
    if agents != [] { TotalNone(agents[..|agents| - 1], k, c); }
  }

  /** How often a queue is in the global list. */
  function Listed(global: seq<nat>, c: nat): nat { multiset(global)[c] }

  lemma ListedFirst(global: seq<nat>, c: nat)
    requires global != []
    ensures Listed(global, c) == Listed(global[1..], c) + if global[0] == c then 1 else 0
  {
    assert global == [global[0]] + global[1..];
  }

  lemma ListedLast(global: seq<nat>, q: nat, c: nat)
    ensures Listed(global + [q], c) == Listed(global, c) + if q == c then 1 else 0
  {
  }

  // ---------------------------------------------------------------- the invariant

  function Messages(out: seq<Outcome>): seq<Message> {
    seq(|out|, j requires 0 <= j < |out| => out[j].m)
  }

  predicate AllDispatched(out: seq<Outcome>) {
    forall j :: 0 <= j < |out| ==> out[j].Dispatched?
  }

  /** Nothing is dispatched after something was dropped. */
  predicate DropsLast(out: seq<Outcome>) {
    forall j, k :: 0 <= j < k < |out| && out[j].Dropped? ==> out[k].Dropped?
  }

  /** In how many places a queue is: hands of agents, and the global list. */
  function Places(s: State, c: nat): nat {
    Total(s.agents, Hand, c) + Total(s.agents, Maker, c) + Total(s.agents, Drain, c) + Total(s.agents, Free, c)
    + Listed(s.global, c)
  }

  /** References are counted, and the last one to go deletes the context, once. */
  predicate Counted(s: State, c: nat)
    requires c < |s.services|
  {
    var v := s.services[c];
    && v.ref == Total(s.agents, Ref, c) + One(v.registered)
    && Total(s.agents, Del, c) <= 1
    && (v.ref == 0 <==> v.release || Total(s.agents, Del, c) == 1) && !(v.release && Total(s.agents, Del, c) == 1)
    && (Total(s.agents, Gone, c) > 0 ==> v.ref == 0)
  }

  /** A queue is in one place or none; which of the two, its flags tell. */
  predicate Placed(s: State, c: nat)
    requires c < |s.services|
  {
    var v := s.services[c];
    && Places(s, c) <= 1
    && (!v.release ==> (v.inGlobal <==> Places(s, c) == 1))
    && (v.release && !v.freed ==> Places(s, c) == 1)
    && (v.freed ==> v.release && Places(s, c) == 0 && v.msgs == [])
    && (v.msgs != [] ==> v.inGlobal)
    && (Total(s.agents, Drain, c) + Total(s.agents, Free, c) > 0 ==> v.release && !v.freed)
    && (Total(s.agents, Free, c) > 0 ==> v.msgs == [])
    && (v.registered ==> v.init || Total(s.agents, Maker, c) > 0) && (Total(s.agents, Run, c) > 0 ==> v.init)
  }

  /** Every message pushed has been dispatched or dropped, in order, or is still there. */
  predicate Conserved(v: Service) {
    && v.pushed == Messages(v.out) + v.msgs
    && DropsLast(v.out) && (!v.release ==> AllDispatched(v.out))
  }

  /** A context has its queue once its creator has made it, and no message before. */
  predicate Made(s: State, c: nat)
    requires c < |s.services|
  {
    var v := s.services[c];
    && Total(s.agents, New, c) == One(!v.queue)
    && (!v.queue ==> v.pushed == [])
  }

  predicate Ok(s: State, c: nat)
    requires c < |s.services|
  {
    Counted(s, c) && Placed(s, c) && Conserved(s.services[c])
  }

  /** The services that are accounted for. */
  function Settled(s: State): set<nat> {
    set c: nat | c < |s.services| && Ok(s, c)
  }

  ghost predicate Inv(s: State) {
    Proper(s) && forall c :: 0 <= c < |s.services| ==> Ok(s, c) && Made(s, c)
  }

  // ---------------------------------------------------------------- each step keeps it

  lemma ConservedPush(v: Service, m: Message)
    requires Conserved(v)
    ensures Conserved(PushMessage(v, m))
  {
  }

  lemma ConservedTake(v: Service, o: Outcome)
    requires Conserved(v) && v.msgs != [] && o.m == v.msgs[0] && (o.Dropped? <==> v.release)
    ensures Conserved(TakeOut(v, o))
  {
    assert Messages(v.out + [o]) == Messages(v.out) + [o.m];
    assert v.msgs == [v.msgs[0]] + v.msgs[1..];
  }

  lemma TakeConserved(s: State, q: nat, o: Outcome)
    requires q < |s.services| && Conserved(s.services[q]) && s.services[q].msgs != [] && o.m == s.services[q].msgs[0]
    requires o.Dropped? <==> s.services[q].release
    ensures Conserved(TakeOut(s.services[q], o))
  {
    ConservedTake(s.services[q], o);
  }

  lemma ConservedMark(v: Service)
    requires Conserved(v)
    ensures Conserved(v.(release := true)) && forall b :: Conserved(v.(release := true, inGlobal := b))
  {
  }

  /** Agent `i` becomes `x`: what the totals are then. */
  lemma Became(s: State, i: nat, x: Agent, c: nat)
    requires i < |s.agents|
    ensures var bs := s.agents[i := x];
            var y := s.agents[i];
            && Total(bs, Ref, c) == Total(s.agents, Ref, c) - Has(y, Ref, c) + Has(x, Ref, c)
            && Total(bs, Hand, c) == Total(s.agents, Hand, c) - Has(y, Hand, c) + Has(x, Hand, c)
            && Total(bs, Maker, c) == Total(s.agents, Maker, c) - Has(y, Maker, c) + Has(x, Maker, c)
            && Total(bs, Del, c) == Total(s.agents, Del, c) - Has(y, Del, c) + Has(x, Del, c)
            && Total(bs, Run, c) == Total(s.agents, Run, c) - Has(y, Run, c) + Has(x, Run, c)
            && Total(bs, Drain, c) == Total(s.agents, Drain, c) - Has(y, Drain, c) + Has(x, Drain, c)
            && Total(bs, Free, c) == Total(s.agents, Free, c) - Has(y, Free, c) + Has(x, Free, c)
            && Total(bs, Gone, c) == Total(s.agents, Gone, c) - Has(y, Gone, c) + Has(x, Gone, c)
    ensures var y := s.agents[i];
            && Has(y, Ref, c) <= Total(s.agents, Ref, c) && Has(y, Hand, c) <= Total(s.agents, Hand, c)
            && Has(y, Maker, c) <= Total(s.agents, Maker, c) && Has(y, Del, c) <= Total(s.agents, Del, c)
            && Has(y, Run, c) <= Total(s.agents, Run, c) && Has(y, Drain, c) <= Total(s.agents, Drain, c)
            && Has(y, Free, c) <= Total(s.agents, Free, c) && Has(y, Gone, c) <= Total(s.agents, Gone, c)
  {
    forall k ensures Total(s.agents[i := x], k, c) == Total(s.agents, k, c) - Has(s.agents[i], k, c) + Has(x, k, c)
             ensures Has(s.agents[i], k, c) <= Total(s.agents, k, c) {
      TotalUpdate(s.agents, i, x, k, c);
    }
  }

  lemma LaunchOk(s: State, i: nat, c: nat)
    requires Inv(s) && Enabled(s, i, Launch) && s.agents[i].Idle? && c <= |s.services|
    ensures c in Settled(Step(s, i, Launch))
  {
    if c < |s.services| { LaunchOther(s, i, c); } else { LaunchNew(s, i); }
  }

  lemma LaunchOther(s: State, i: nat, c: nat)
    requires Inv(s) && Enabled(s, i, Launch) && s.agents[i].Idle? && c < |s.services|
    ensures c in Settled(Step(s, i, Launch))
  {
    hide Total, Listed, Conserved, Proper, Made;
    Became(s, i, Registering(|s.services|), c);
    assert Ok(s, c);
  }

  lemma LaunchNew(s: State, i: nat)
    requires Inv(s) && Enabled(s, i, Launch) && s.agents[i].Idle?
    ensures |s.services| in Settled(Step(s, i, Launch))
  {
    var c := |s.services|;
    var t := Step(s, i, Launch);
    Became(s, i, Registering(c), c);
    forall k ensures Total(s.agents, k, c) == 0 { TotalNone(s.agents, k, c); }
    NotListed(s.global, c);
    HasMade(c);
    assert forall k :: Has(Idle, k, c) == 0;
    hide Has, Total, Listed, Made, Ok, Proper, Names;
    assert Counted(t, c) && Placed(t, c) && Conserved(t.services[c]);
    assert Ok(t, c) by { OkIs(t, c); }
  }

  lemma OkIs(s: State, c: nat)
    requires c < |s.services|
    ensures Ok(s, c) <==> Counted(s, c) && Placed(s, c) && Conserved(s.services[c])
  {
  }

  lemma SendOk(s: State, i: nat, q: nat, m: Message, c: nat)
    requires Inv(s) && Enabled(s, i, Send(q, m)) && s.agents[i].Idle? && c < |s.services|
    ensures c in Settled(Step(s, i, Send(q, m)))
  {
    Became(s, i, Pushing(q, m), c);
    assert Ok(s, c);
    hide Total, Listed, Conserved, Proper;
  }

  lemma KillOk(s: State, i: nat, q: nat, c: nat)
    requires Inv(s) && Enabled(s, i, Kill(q)) && s.agents[i].Idle? && c < |s.services|
    ensures c in Settled(Step(s, i, Kill(q)))
  {
    Became(s, i, Releasing(q, Rest), c);
    assert Ok(s, c);
    hide Total, Listed, Conserved, Proper;
  }

  lemma TakeOk(s: State, i: nat, c: nat)
    requires Inv(s) && Enabled(s, i, Take) && s.agents[i].Idle? && c < |s.services|
    ensures c in Settled(Step(s, i, Take))
  {
    hide Total, Listed, Conserved, Proper;
    assert Ok(s, c);
    if s.global != [] {
      Became(s, i, Holding(s.global[0]), c);
      ListedFirst(s.global, c);
    }
  }

  /** What a step does not touch stays as it is. */
  lemma Untouched(s: State, t: State, i: nat, x: Agent, c: nat)
    requires i < |s.agents| && c < |s.services| && |t.services| == |s.services| && Ok(s, c)
    requires t.agents == s.agents[i := x] && t.services[c] == s.services[c] && Listed(t.global, c) == Listed(s.global, c)
    requires forall k :: Has(s.agents[i], k, c) == Has(x, k, c)
    ensures c in Settled(t)
  {
    hide Has, Total, Listed, Conserved;
    Became(s, i, x, c);
  }

  lemma StartOk(s: State, i: nat, q: nat, next: Then)
    requires i < |s.agents| && q < |s.services| && Ok(s, q) && s.agents[i] == Launching(q)
    requires next.Publish? || next.Retire?
    ensures q in Settled(SetAgent(s, i, Releasing(q, next)))
  {
    hide Total, Listed, Conserved;
    Became(s, i, SetAgent(s, i, Releasing(q, next)).agents[i], q);
  }

  lemma CreateOk(s: State, i: nat, q: nat)
    requires i < |s.agents| && q < |s.services| && Ok(s, q) && s.agents[i] == Registering(q)
    ensures q in Settled(CreateStep(s, i, q))
  {
    var t := CreateStep(s, i, q);
    Became(s, i, t.agents[i], q);
    HasMade(q);
    hide Has, Total, Listed, Conserved;
    assert Counted(t, q) by { hide Placed; }
    assert Placed(t, q) by { hide Counted; }
  }

  lemma LookOk(s: State, i: nat, q: nat)
    requires i < |s.agents| && q < |s.services| && Ok(s, q) && s.agents[i] == Holding(q)
    ensures q in Settled(LookStep(s, i, q))
  {
    var t := LookStep(s, i, q);
    Became(s, i, t.agents[i], q);
    HasOwn(q);
    hide Has, Total, Listed, Conserved;
    assert Counted(t, q) by { hide Placed; }
    assert Placed(t, q) by { hide Counted; }
  }

  lemma RunOk(s: State, i: nat, q: nat, more: bool)
    requires i < |s.agents| && q < |s.services| && Ok(s, q) && s.agents[i] == Running(q)
    ensures q in Settled(RunStep(s, i, q, more))
  {
    var t := RunStep(s, i, q, more);
    Became(s, i, t.agents[i], q);
    if s.services[q].msgs != [] { TakeConserved(s, q, Dispatched(s.services[q].msgs[0])); }
    HasOwn(q);
    hide Has, Total, Listed, Conserved;
    assert Counted(t, q) by { hide Placed; }
    assert Placed(t, q) by { hide Counted; }
  }

  /** Taking a queue from the global list into the hands of a worker. */
  lemma TakenOk(s: State, i: nat, x: Agent, c: nat)
    requires i < |s.agents| && c < |s.services| && Ok(s, c) && s.global != []
    requires forall k :: Has(x, k, c) == Has(s.agents[i], k, c) + One(k.Hand? && s.global[0] == c)
    ensures c in Settled(SetAgent(s.(global := s.global[1..]), i, x))
  {
    hide Has, Total, Listed, Conserved;
    Became(s, i, x, c);
    ListedFirst(s.global, c);
  }

  lemma SwapOk(s: State, i: nat, q: nat, nq: nat)
    requires i < |s.agents| && q < |s.services| && Ok(s, q) && s.agents[i] == Swapping(q, nq)
    ensures q in Settled(SetAgent(Schedule(s, q), i, Releasing(q, Carry(nq))))
  {
    hide Total, Listed, Conserved;
    Became(s, i, SetAgent(Schedule(s, q), i, Releasing(q, Carry(nq))).agents[i], q);
    ListedLast(s.global, q, q);
  }

  lemma PushOk(s: State, i: nat, q: nat, m: Message)
    requires i < |s.agents| && q < |s.services| && Ok(s, q) && s.agents[i] == Pushing(q, m)
    ensures q in Settled(PushStep(s, i, q, m))
  {
    hide Total, Listed, Conserved;
    Became(s, i, PushStep(s, i, q, m).agents[i], q);
    ConservedPush(s.services[q], m);
    ListedLast(s.global, q, q);
  }

  /** Giving up a reference leaves an agent what it had besides. */
  lemma AfterHas(q: nat, next: Then, ok: bool, c: nat)
    ensures forall k :: Has(After(q, next, ok), k, c)
                        == ThenHas(q, next, k, c) + One(k.Gone? && next.Publish? && !ok && q == c)
    ensures forall k :: Has(Releasing(q, next), k, c) == One(q == c && k.Ref?) + ThenHas(q, next, k, c)
    ensures forall k :: Has(Deleting(q, next), k, c) == One(q == c && k.Del?) + ThenHas(q, next, k, c)
  {
  }

  lemma ReleaseOk(s: State, i: nat, q: nat, next: Then)
    requires i < |s.agents| && q < |s.services| && Ok(s, q) && s.agents[i] == Releasing(q, next)
    ensures q in Settled(ReleaseStep(s, i, q, next))
  {
    Became(s, i, ReleaseStep(s, i, q, next).agents[i], q);
    AfterHas(q, next, true, q);
    hide Has, After, ThenHas, Total, Listed, Conserved;
  }

  lemma DeleteOk(s: State, i: nat, q: nat, next: Then)
    requires i < |s.agents| && q < |s.services| && Ok(s, q) && s.agents[i] == Deleting(q, next)
    ensures q in Settled(DeleteStep(s, i, q, next))
  {
    hide Has, After, ThenHas, Total, Listed, Conserved;
    Became(s, i, DeleteStep(s, i, q, next).agents[i], q);
    AfterHas(q, next, false, q);
    ListedLast(s.global, q, q);
    ConservedMark(s.services[q]);
  }

  /** What an agent has of the service it is at work with. */
  lemma HasOwn(q: nat)
    ensures forall k :: Has(Holding(q), k, q) == One(k.Hand?) && Has(Running(q), k, q) == One(k.Hand? || k.Ref? || k.Run?)
    ensures forall k :: Has(Finished(q), k, q) == One(k.Hand? || k.Ref?) && Has(Dropping(q), k, q) == One(k.Hand?)
    ensures forall k :: Has(Releasing(q, Rest), k, q) == One(k.Ref?)
    ensures forall k :: Has(Releasing(q, Discard), k, q) == One(k.Ref?) + One(k.Hand?)
  {
  }

  lemma HasMade(q: nat)
    ensures forall k :: Has(Registering(q), k, q) == One(k.Maker? || k.Ref? || k.New?)
    ensures forall k :: Has(Launching(q), k, q) == One(k.Maker? || k.Ref?)
    ensures forall k :: Has(Marking(q), k, q) == One(k.Maker?) && Has(Retiring(q), k, q) == One(k.Maker?)
    ensures forall k :: Has(Publishing(q, true), k, q) == One(k.Maker? || k.Run?)
    ensures forall k :: Has(Publishing(q, false), k, q) == One(k.Maker? || k.Gone?)
  {
  }

  lemma MarkOk(s: State, i: nat, q: nat)
    requires i < |s.agents| && q < |s.services| && Ok(s, q) && s.agents[i] == Marking(q)
    ensures q in Settled(MarkStep(s, i, q))
  {
    var t := MarkStep(s, i, q);
    Became(s, i, t.agents[i], q);
    HasMade(q);
    hide Has, Total, Listed, Conserved;
    assert Counted(t, q) by { hide Placed; }
    assert Placed(t, q) by { hide Counted; }
  }

  lemma PublishOk(s: State, i: nat, q: nat, ok: bool)
    requires i < |s.agents| && q < |s.services| && Ok(s, q) && s.agents[i] == Publishing(q, ok)
    ensures q in Settled(PublishStep(s, i, q))
  {
    hide Total, Listed, Conserved;
    Became(s, i, Idle, q);
    ListedLast(s.global, q, q);
  }

  lemma RetireOk(s: State, i: nat, q: nat)
    requires i < |s.agents| && q < |s.services| && Ok(s, q) && s.agents[i] == Retiring(q)
    ensures q in Settled(RetireStep(s, i, q))
  {
    var t := RetireStep(s, i, q);
    Became(s, i, t.agents[i], q);
    HasOwn(q);
    HasMade(q);
    hide Has, Total, Listed, Conserved;
    assert Counted(t, q) by { hide Placed; }
    assert Placed(t, q) by { hide Counted; }
  }

  lemma DropOk(s: State, i: nat, q: nat)
    requires i < |s.agents| && q < |s.services| && Ok(s, q) && s.agents[i] == Dropping(q)
    ensures q in Settled(DropStep(s, i, q))
  {
    hide Total, Listed, Conserved;
    Became(s, i, DropStep(s, i, q).agents[i], q);
    ListedLast(s.global, q, q);
  }

  lemma EmptyOk(s: State, i: nat, q: nat)
    requires i < |s.agents| && q < |s.services| && Ok(s, q) && s.agents[i] == Emptying(q)
    ensures q in Settled(EmptyStep(s, i, q))
  {
    Became(s, i, EmptyStep(s, i, q).agents[i], q);
    if s.services[q].msgs != [] { TakeConserved(s, q, Dropped(s.services[q].msgs[0])); }
    hide Total, Listed, Conserved;
  }

  lemma FreeOk(s: State, i: nat, q: nat)
    requires i < |s.agents| && q < |s.services| && Ok(s, q) && s.agents[i] == Freeing(q)
    ensures q in Settled(FreeStep(s, i, q))
  {
    Became(s, i, FreeStep(s, i, q).agents[i], q);
    hide Total, Listed, Conserved;
  }

  lemma NotListed(global: seq<nat>, c: nat)
    requires c !in global
    ensures Listed(global, c) == 0
  {
  }

  // ---------------------------------------------------------------- all runs

  /** What a step of agent `i` leaves alone. */
  lemma StepFrame(s: State, i: nat, a: Action, c: nat)
    requires Proper(s) && Enabled(s, i, a) && !s.agents[i].Idle? && c < |s.services| && c != s.agents[i].q
    ensures var t := Step(s, i, a);
            && |t.services| == |s.services| && t.services[c] == s.services[c]
            && |t.agents| == |s.agents| && t.agents == s.agents[i := t.agents[i]]
    ensures var t := Step(s, i, a);
            s.agents[i].Finished? && s.global != [] ==>
              && t == SetAgent(s.(global := s.global[1..]), i, t.agents[i])
              && t.agents[i] == Swapping(s.agents[i].q, s.global[0])
    ensures var t := Step(s, i, a);
            !(s.agents[i].Finished? && s.global != []) ==> t.global == s.global || t.global == s.global + [s.agents[i].q]
  {
    assert Names(s.agents[i], s.agents[i].q);
  }

  lemma HasElsewhere(s: State, i: nat, a: Action, c: nat, k: Kind)
    requires Proper(s) && Enabled(s, i, a) && !s.agents[i].Idle? && c != s.agents[i].q
    requires !(s.agents[i].Finished? && s.global != [])
    ensures Has(Step(s, i, a).agents[i], k, c) == Has(s.agents[i], k, c)
  {
    var x := s.agents[i];
    assert Names(x, x.q);
    if x.Releasing? { ReleasedElsewhere(s, i, c, k); } else if x.Deleting? { DeletedElsewhere(s, i, c, k); }
    hide Proper, ReleaseStep, DeleteStep;
  }

  lemma ReleasedElsewhere(s: State, i: nat, c: nat, k: Kind)
    requires i < |s.agents| && s.agents[i].Releasing? && s.agents[i].q < |s.services| && c != s.agents[i].q
    ensures var x := s.agents[i]; Has(ReleaseStep(s, i, x.q, x.next).agents[i], k, c) == Has(x, k, c)
  {
  }

  lemma DeletedElsewhere(s: State, i: nat, c: nat, k: Kind)
    requires i < |s.agents| && s.agents[i].Deleting? && s.agents[i].q < |s.services| && c != s.agents[i].q
    ensures var x := s.agents[i]; Has(DeleteStep(s, i, x.q, x.next).agents[i], k, c) == Has(x, k, c)
  {
  }

  lemma OtherOk(s: State, i: nat, a: Action, c: nat)
    requires Inv(s) && Enabled(s, i, a) && !s.agents[i].Idle? && c < |s.services| && c != s.agents[i].q
    ensures c in Settled(Step(s, i, a))
  {
    StepFrame(s, i, a, c);
    assert Ok(s, c);
    var t := Step(s, i, a);
    if s.agents[i].Finished? && s.global != [] {
      TakenOk(s, i, t.agents[i], c);
    } else {
      ListedLast(s.global, s.agents[i].q, c);
      forall k { HasElsewhere(s, i, a, c, k); }
      hide Step, Ok, Has, Proper, Inv;
      Untouched(s, t, i, t.agents[i], c);
    }
  }

  lemma FinishOk(s: State, i: nat, q: nat)
    requires i < |s.agents| && q < |s.services| && Ok(s, q) && s.agents[i] == Finished(q)
    ensures q in Settled(FinishStep(s, i, q))
  {
    if s.global == [] { Untouched(s, FinishStep(s, i, q), i, Releasing(q, Carry(q)), q); }
    else { TakenOk(s, i, Swapping(q, s.global[0]), q); }
  }

  lemma {:induction false} OwnOk(s: State, i: nat, a: Action)
    requires Inv(s) && Enabled(s, i, a) && !s.agents[i].Idle?
    ensures s.agents[i].q in Settled(Step(s, i, a))
  {
    var x := s.agents[i];
    assert Names(x, x.q) && Ok(s, x.q);
    match x
    case Registering(q) => CreateOk(s, i, q);
    case Launching(q) => StartOk(s, i, q, if a.Succeed? then Publish else Retire);
    case Holding(q) => LookOk(s, i, q);
    case Running(q) => RunOk(s, i, q, a.More?);
    case Finished(q) => FinishOk(s, i, q);
    case Swapping(q, nq) => SwapOk(s, i, q, nq);
    case Pushing(q, m) => PushOk(s, i, q, m);
    case Releasing(q, next) => ReleaseOk(s, i, q, next);
    case Deleting(q, next) => DeleteOk(s, i, q, next);
    case Marking(q) => MarkOk(s, i, q);
    case Publishing(q, ok) => PublishOk(s, i, q, ok);
    case Retiring(q) => RetireOk(s, i, q);
    case Dropping(q) => DropOk(s, i, q);
    case Emptying(q) => EmptyOk(s, i, q);
    case Freeing(q) => FreeOk(s, i, q);
  }

  lemma IdleOk(s: State, i: nat, a: Action, c: nat)
    requires Inv(s) && Enabled(s, i, a) && s.agents[i].Idle? && c < |Step(s, i, a).services|
    ensures c in Settled(Step(s, i, a))
  {
    match a
    case Launch => LaunchOk(s, i, c);
    case Send(q, m) => SendOk(s, i, q, m, c);
    case Kill(q) => KillOk(s, i, q, c);
    case Take => TakeOk(s, i, c);
    case _ =>
  }

  /** What agents and the list refer to stays known. */
  lemma StepProper(s: State, i: nat, a: Action)
    requires Proper(s) && Enabled(s, i, a)
    ensures Proper(Step(s, i, a)) && |s.services| <= |Step(s, i, a).services|
    ensures !s.agents[i].Idle? ==> |s.services| == |Step(s, i, a).services|
  {
    var t := Step(s, i, a);
    var x := s.agents[i];
    assert !x.Idle? ==> Names(x, x.q);
    forall q | q in t.global ensures q < |t.services| {
      if q in s.global { assert q < |s.services|; }
    }
    forall j: nat, c: nat | j < |t.agents| && Names(t.agents[j], c) ensures c < |t.services| {
      if j == i {
        if s.global != [] { assert s.global[0] in s.global; }
        if !x.Idle? { NamesNext(s, i, a, c); }
      } else {
        assert Names(s.agents[j], c);
      }
    }
  }

  /** An agent goes on with what it refers to, or with a queue from the list. */
  lemma NamesNext(s: State, i: nat, a: Action, c: nat)
    requires Proper(s) && Enabled(s, i, a) && !s.agents[i].Idle? && Names(Step(s, i, a).agents[i], c)
    ensures Names(s.agents[i], c) || (s.global != [] && c == s.global[0])
  {
  }

  lemma HasNew(x: Agent, c: nat)
    ensures Has(x, New, c) == One(x == Registering(c))
  {
  }

  /** Only a launch makes somebody a creator without a queue. */
  lemma NotNewAgain(s: State, i: nat, a: Action)
    requires Proper(s) && Enabled(s, i, a) && !s.agents[i].Idle?
    ensures !Step(s, i, a).agents[i].Registering?
  {
    hide Proper;
    assert Names(s.agents[i], s.agents[i].q);
  }

  lemma IdleNew(s: State, i: nat, a: Action)
    requires Enabled(s, i, a) && s.agents[i].Idle?
    ensures var t := IdleStep(s, i, a);
            && (t.agents[i].Registering? ==> t.agents[i].q == |s.services|)
            && |t.agents| == |s.agents| && t.agents == s.agents[i := t.agents[i]]
            && (|t.services| == |s.services|
                || (t.services == s.services + [NewService()] && t.agents[i] == Registering(|s.services|)))
  {
  }

  /** Only the creator's next step gives a context a queue, and only one with a queue gets messages. */
  lemma QueueSame(s: State, i: nat, a: Action, c: nat)
    requires Proper(s) && Enabled(s, i, a) && c < |s.services|
    ensures var t := Step(s, i, a);
            && |t.agents| == |s.agents| && t.agents == s.agents[i := t.agents[i]] && c < |t.services|
            && t.services[c].queue == (s.services[c].queue || s.agents[i] == Registering(c))
            && (s.services[c].queue || t.services[c].pushed == s.services[c].pushed)
  {
    hide Proper;
    if !s.agents[i].Idle? {
      assert Names(s.agents[i], s.agents[i].q);
      if c != s.agents[i].q { StepFrame(s, i, a, c); }
    }
  }

  lemma StepMade(s: State, i: nat, a: Action, c: nat)
    requires Proper(s) && Enabled(s, i, a) && c < |Step(s, i, a).services| && (c < |s.services| ==> Made(s, c))
    ensures Made(Step(s, i, a), c)
  {
    var t := Step(s, i, a);
    TotalUpdate(s.agents, i, t.agents[i], New, c);
    HasNew(s.agents[i], c);
    HasNew(t.agents[i], c);
    if c < |s.services| { QueueSame(s, i, a, c); } else { TotalNone(s.agents, New, c); }
    if s.agents[i].Idle? {
      IdleNew(s, i, a);
    } else {
      NotNewAgain(s, i, a);
      StepProper(s, i, a);
    }
    hide Has, Total, IdleStep;
  }

  lemma StepInv(s: State, i: nat, a: Action)
    requires Inv(s) && Enabled(s, i, a)
    ensures Inv(Step(s, i, a))
  {
    StepProper(s, i, a);
    hide Step, Ok, Made, Proper;
    forall c: nat | c < |Step(s, i, a).services| ensures Ok(Step(s, i, a), c) && Made(Step(s, i, a), c) {
      StepMade(s, i, a, c);
      if s.agents[i].Idle? { IdleOk(s, i, a, c); }
      else if c == s.agents[i].q { OwnOk(s, i, a); }
      else { OtherOk(s, i, a, c); }
    }
  }

  /** `n` agents and no service yet. */
  function Initial(n: nat): State { State([], [], seq(n, _ => Idle)) }

  ghost predicate Next(s: State, t: State) {
    exists i: nat, a :: Enabled(s, i, a) && Proper(s) && t == Step(s, i, a)
  }

  /** A run: any number of agents, any interleaving of their steps. */
  ghost predicate Behaviour(run: seq<State>) {
    && run != [] && (exists n: nat :: run[0] == Initial(n))
    && forall j :: 0 < j < |run| ==> Next(run[j - 1], run[j])
  }

  lemma InitialInv(n: nat)
    ensures Inv(Initial(n))
  {
  }

  /** Every state of every run satisfies the invariant. */
  lemma {:induction false} RunInv(run: seq<State>, j: nat)
    requires Behaviour(run) && j < |run|
    ensures Inv(run[j])
  {
    if j == 0 {
      var n: nat :| run[0] == Initial(n);
      InitialInv(n);
    } else {
      RunInv(run, j - 1);
      assert Next(run[j - 1], run[j]);
      var i: nat, a :| Enabled(run[j - 1], i, a) && Proper(run[j - 1]) && run[j] == Step(run[j - 1], i, a);
      StepInv(run[j - 1], i, a);
    }
  }

  // ---------------------------------------------------------------- what follows

  /** In every run, at any time: a queue is in at most one place, the global list or one agent's
      hands; one that has messages, and is not gone, is in one of them; and of the messages pushed,
      what has been taken out was dispatched or dropped, once each and in the order it was pushed,
      with nothing dispatched after a drop.  A queue that is gone has none left. */
  lemma Safety(run: seq<State>, j: nat, c: nat)
    requires Behaviour(run) && j < |run| && c < |run[j].services|
    ensures var v := run[j].services[c];
            && Places(run[j], c) <= 1
            && (v.msgs != [] && !v.freed ==> Places(run[j], c) == 1)
            && v.pushed == Messages(v.out) + v.msgs && DropsLast(v.out)
            && (v.freed ==> v.pushed == Messages(v.out) && Places(run[j], c) == 0 && v.ref == 0)
  {
    RunInv(run, j);
    assert Ok(run[j], c);
    var v := run[j].services[c];
    if v.msgs == [] { assert Messages(v.out) + [] == Messages(v.out); }
  }

  /** What the code asserts at a step: a context dispatched to has been initialized, a queue is marked
      for release once, and is not in the global list when it is put there or freed. */
  ghost predicate Asserted(s: State, i: nat, a: Action)
    requires Proper(s) && Enabled(s, i, a)
  {
    var x := s.agents[i];
    assert !x.Idle? ==> Names(x, x.q);
    match x
    case Running(q) => s.services[q].init
    case Pushing(q, _) => !s.services[q].inGlobal ==> q !in s.global
    case Deleting(q, _) => !s.services[q].release && (!s.services[q].inGlobal ==> q !in s.global)
    case Swapping(q, _) => q !in s.global
    case Publishing(q, _) => q !in s.global
    case Dropping(q) => q !in s.global
    case Freeing(q) => q !in s.global && !s.services[q].freed && s.services[q].msgs == []
    case _ => true
  }

  /** No assertion fails, in any run. */
  lemma AssertsHold(s: State, i: nat, a: Action)
    requires Inv(s) && Enabled(s, i, a)
    ensures Asserted(s, i, a)
  {
    var x := s.agents[i];
    if !x.Idle? {
      assert Names(x, x.q) && Ok(s, x.q);
      Became(s, i, x, x.q);
      hide Total, Conserved, Proper;
    }
  }

  /** A queue that is gone is never touched again, and no agent refers to it; so it is freed only once,
      too. */
  lemma GoneForGood(s: State, i: nat, a: Action, c: nat)
    requires Inv(s) && Enabled(s, i, a) && c < |s.services| && s.services[c].freed
    ensures c < |Step(s, i, a).services| && Step(s, i, a).services[c] == s.services[c]
    ensures !Names(s.agents[i], c)
  {
    hide Conserved, Listed;
    var x := s.agents[i];
    assert Ok(s, c);
    if !x.Idle? {
      Became(s, i, x, c);
      if x.q != c { StepFrame(s, i, a, c); }
      hide Total;
    }
  }

  /** The creator's note that a context is initialized reaches it if, and only if, its handle still stands or
      somebody else refers to it. */
  lemma MarkReaches(s: State, i: nat, q: nat)
    requires Inv(s) && i < |s.agents| && s.agents[i] == Marking(q)
    ensures q < |s.services|
    ensures var v, w := s.services[q], MarkStep(s, i, q).services[q];
            && (v.ref > 0 <==> v.registered || Total(s.agents, Ref, q) > 0)
            && (w.init <==> v.init || v.registered || Total(s.agents, Ref, q) > 0)
            && (v.ref > 0 ==> !v.release)
  {
    hide Total, Conserved, Listed;
    assert Names(s.agents[i], q);
    assert Ok(s, q);
  }

  lemma StepNext(s: State, i: nat, a: Action) returns (t: State)
    requires Enabled(s, i, a) && Proper(s)
    ensures t == Step(s, i, a) && Next(s, t) && Proper(t)
  {
    t := Step(s, i, a);
    StepProper(s, i, a);
  }

  /** It need not: the creator has given up its reference, and before it gets to write, a kill gives up the
      last one. */
  lemma MarkTooLate() returns (run: seq<State>)
    ensures Behaviour(run)
    ensures var s := run[|run| - 1];
            |s.agents| == 2 && |s.services| == 1 && s.agents[0] == Marking(0) && s.services[0].ref == 0
  {
    hide Next;
    var s0 := Initial(2);
    assert Proper(s0);
    hide Proper;
    var s1 := StepNext(s0, 0, Launch);
    var s2 := StepNext(s1, 0, Go);
    var s3 := StepNext(s2, 0, Succeed);
    var s4 := StepNext(s3, 0, Go);
    var s5 := StepNext(s4, 1, Kill(0));
    var s6 := StepNext(s5, 1, Go);
    run := [s0, s1, s2, s3, s4, s5, s6];
  }

  /** A message sent to a handle that stands gets into the queue if, and only if, the creator of the service has
      come to make one. */
  lemma PushReaches(s: State, i: nat, q: nat, m: Message)
    requires Inv(s) && i < |s.agents| && s.agents[i] == Pushing(q, m)
    ensures q < |s.services|
    ensures var v, w := s.services[q], PushStep(s, i, q, m).services[q];
            if Total(s.agents, New, q) == 0 then w.pushed == v.pushed + [m] else w == v && w.pushed == []
  {
    hide Total, Listed, Ok;
    assert Names(s.agents[i], q);
    assert Made(s, q);
  }

  /** It need not: a handle is found before there is a queue. */
  lemma PushTooEarly(m: Message) returns (run: seq<State>)
    ensures Behaviour(run)
    ensures var s := run[|run| - 1];
            |s.services| == 1 && s.agents == [Registering(0), Pushing(0, m)] && !s.services[0].queue
  {
    hide Next;
    var s0 := Initial(2);
    assert Proper(s0);
    hide Proper;
    var s1 := StepNext(s0, 0, Launch);
    var s2 := StepNext(s1, 1, Send(0, m));
    run := [s0, s1, s2];
  }
}
