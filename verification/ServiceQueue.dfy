/** The message queue of a service: a ring that doubles when it is full. */
module ServiceQueue {
  import opened Seqs

  const DEFAULT_QUEUE_SIZE := 64
  const MQ_OVERLOAD := 1024

  datatype Message = Message(source: nat, session: int, data: nat)

  /** The elements of a ring from `head` to `tail`, going round. */
  function Ring<T>(s: seq<T>, head: nat, tail: nat): seq<T>
    requires head <= |s| && tail <= |s|
  {
    if head <= tail then s[head..tail] else s[head..] + s[..tail]
  }

  /** A threshold doubled until it is no less than `length`. */
  function Raised(threshold: nat, length: nat): (r: nat)
    requires threshold > 0
    ensures r >= length && r >= threshold
    ensures length <= threshold ==> r == threshold
    ensures length > threshold ==> r < 2 * length
    decreases length - threshold
  {
    if length > threshold then Raised(2 * threshold, length) else threshold
  }

  class MessageQueue {
    var queue: array<Message>
    var cap: nat
    var head: nat
    var tail: nat
    var release: bool
    var inGlobal: bool
    var overload: nat
    var overloadThreshold: nat

    ghost predicate Valid()
      reads this
    {
      queue.Length == cap > 0 && head < cap && tail < cap && overloadThreshold > 0
    }

    ghost function Contents(): seq<Message>
      requires Valid()
      reads this, queue
    {
      Ring(queue[..], head, tail)
    }

    /** A new queue is marked as scheduled: it is its creator who will schedule it. */
    constructor ()
      ensures Valid() && fresh(queue) && Contents() == [] && inGlobal && !release
    {
      cap, head, tail := DEFAULT_QUEUE_SIZE, 0, 0;
      queue := new Message[DEFAULT_QUEUE_SIZE](_ => Message(0, 0, 0));
      release, inGlobal, overload, overloadThreshold := false, true, 0, MQ_OVERLOAD;
    }

    method Length() returns (n: nat)
      requires Valid()
      ensures n == |Contents()|
    {
      if head <= tail {
        return tail - head;
      }
      return tail + cap - head;
    }

    /** Take the first message.  An empty queue stops being scheduled. */
    method Pop() returns (ok: bool, m: Message)
      requires Valid()
      modifies this
      ensures Valid() && queue == old(queue) && release == old(release)
      ensures ok <==> old(Contents()) != []
      ensures ok ==> [m] + Contents() == old(Contents()) && inGlobal == old(inGlobal)
      ensures ok ==> overloadThreshold == Raised(old(overloadThreshold), |Contents()|)
      ensures ok ==> overload == if |Contents()| > old(overloadThreshold) then |Contents()| else old(overload)
      ensures !ok ==> Contents() == [] && !inGlobal && overloadThreshold == MQ_OVERLOAD && overload == old(overload)
    {
      RingPop(queue[..], head, tail);
      hide Ring;
      m := queue[head];
      if head != tail {
        ok := true;
        head := head + 1;
        if head >= cap {
          head := 0;
        }
        NoteOverload(if tail < head then tail - head + cap else tail - head);
      } else {
        ok := false;
        overloadThreshold := MQ_OVERLOAD;
        inGlobal := false;
      }
    }

    /** Remember a length beyond the threshold, and raise the threshold. */
    method NoteOverload(length: nat)
      requires overloadThreshold > 0
      modifies this`overload, this`overloadThreshold
      ensures overloadThreshold == Raised(old(overloadThreshold), length)
      ensures overload == if length > old(overloadThreshold) then length else old(overload)
    {
      while length > overloadThreshold
        invariant overloadThreshold > 0
        invariant Raised(overloadThreshold, length) == Raised(old(overloadThreshold), length)
        invariant overload == if overloadThreshold == old(overloadThreshold) then old(overload) else length
        invariant overloadThreshold == old(overloadThreshold) || length > old(overloadThreshold)
        decreases length - overloadThreshold
      {
        overload := length;
        overloadThreshold := overloadThreshold * 2;
      }
    }

    /** Double the ring, which is full. */
    method ExpandQueue(ghost all: seq<Message>)
      requires queue.Length == cap > 0 && head == tail < cap && overloadThreshold > 0
      requires all == queue[head..] + queue[..head]
      modifies this
      ensures Valid() && fresh(queue) && Contents() == all
      ensures release == old(release) && inGlobal == old(inGlobal)
      ensures overload == old(overload) && overloadThreshold == old(overloadThreshold)
    {
      var q, h, n := queue, head, cap;
      var more := new Message[2 * n](_ => Message(0, 0, 0));
      for i := 0 to n
        modifies more
        invariant forall j :: 0 <= j < i ==> more[j] == all[j]
      {
        RoundTrip(h, i, n);
        assert all[i] == if h + i < n then q[h + i] else q[h + i - n];
        more[i] := q[(h + i) % n];
      }
      head, tail, cap := 0, n, 2 * n;
      queue := more;
      assert more[..n] == all;
    }

    /** Append a message.  The result says that the queue has to be scheduled: it was not. */
    method Push(m: Message) returns (schedule: bool)
      requires Valid()
      modifies this, queue
      ensures Valid() && (queue == old(queue) || fresh(queue)) && release == old(release)
      ensures Contents() == old(Contents()) + [m] && inGlobal && schedule == !old(inGlobal)
      ensures overload == old(overload) && overloadThreshold == old(overloadThreshold)
    {
      ghost var before := Contents();
      queue[tail] := m;
      tail := tail + 1;
      if tail >= cap {
        tail := 0;
      }
      if head == tail {
        assert queue[head..] + queue[..head] == before + [m];
        ExpandQueue(before + [m]);
      }
      schedule := !inGlobal;
      inGlobal := true;
    }

    /** Mark for release.  The result says that the queue has to be scheduled once more. */
    method MarkRelease() returns (schedule: bool)
      requires Valid() && !release
      modifies this`release
      ensures Valid() && release && schedule == !inGlobal && Contents() == old(Contents())
    {
      release := true;
      schedule := !inGlobal;
    }
  }

  /** Where the first element is, and what is left without it. */
  lemma RingPop<T>(s: seq<T>, head: nat, tail: nat)
    requires head < |s| && tail < |s|
    ensures head == tail <==> Ring(s, head, tail) == []
    ensures var next := if head + 1 == |s| then 0 else head + 1;
            head != tail ==>
              && [s[head]] + Ring(s, next, tail) == Ring(s, head, tail)
              && |Ring(s, next, tail)| == if tail < next then tail - next + |s| else tail - next
  {
    if head < tail {
      assert s[head..tail] == [s[head]] + s[head + 1..tail];
    } else if tail < head {
      assert s[head..] == [s[head]] + s[head + 1..];
      Assoc([s[head]], s[head + 1..], s[..tail]);
      if head + 1 == |s| { NothingLeft(s, head, tail); }
    }
  }

  lemma NothingLeft<T>(s: seq<T>, head: nat, tail: nat)
    requires tail <= head && head + 1 == |s|
    ensures s[head + 1..] + s[..tail] == s[0..tail]
  {
  }

  lemma RoundTrip(h: nat, i: nat, n: nat)
    requires h < n && i < n
    ensures (h + i) % n == if h + i < n then h + i else h + i - n
  {
    if h + i >= n { assert (h + i - n) < n; assert h + i == n * 1 + (h + i - n); }
  }
}
